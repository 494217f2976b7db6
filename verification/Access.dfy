// The variables a server shows of its model (server/access.go): their values
// and their types, node by node of the tree.

module Access {
  import opened Options
  import opened Octets
  import opened MmsData
  import opened MmsTypeSpec
  import opened DataModel

  // An attribute or an attribute below the object has the constraint.
  predicate HasFC(o: DataObject, fc: FC)
  {
    || (exists i | 0 <= i < |o.attributes| :: o.attributes[i].fc == fc)
    || (exists i | 0 <= i < |o.objects| :: HasFC(o.objects[i], fc))
  }

  // Values

  // None for a leaf of a basic type the library does not know.
  function DaValue(a: Attribute): Option<Value>
    decreases a
  {
    if a.children == [] then
      if a.value.Some? then Some(a.value.value)
      else if a.kind.NoKind? then None
      else Some(Boolean(false))
    else
      match DaValues(a.children)
      case None => None
      case Some(members) =>
        var elem := Structure(members);
        Some(if a.kind.ArrayKind? then Array(seq(a.count, _ => elem)) else elem)
  }

  function DaValues(attrs: seq<Attribute>): (r: Option<seq<Value>>)
    ensures r.Some? ==> |r.value| == |attrs|
    decreases attrs
  {
    if attrs == [] then Some([])
    else
      var v := DaValue(attrs[0]);
      if v.None? then None
      else
        var vs := DaValues(attrs[1..]);
        if vs.None? then None else Some([v.value] + vs.value)
  }

  function Under(attrs: seq<Attribute>, fc: FC): (out: seq<Attribute>)
    ensures forall a | a in out :: a in attrs && a.fc == fc
    ensures forall a | a in attrs && a.fc == fc :: a in out
  {
    if attrs == [] then []
    else (if attrs[0].fc == fc then [attrs[0]] else []) + Under(attrs[1..], fc)
  }

  // None when a member cannot be had, or when there are none.
  function DoValue(o: DataObject, fc: FC): (v: Option<Value>)
    ensures v.Some? ==> v.value.Structure? && v.value.children != []
    decreases o, 0
  {
    match DaValues(Under(o.attributes, fc))
    case None => None
    case Some(attributes) =>
      var members := attributes + DoValues(o.objects, fc);
      if members == [] then None else Some(Structure(members))
  }

  // The objects that cannot be composed are passed by.
  function DoValues(objs: seq<DataObject>, fc: FC): seq<Value>
    decreases objs, 1
  {
    if objs == [] then []
    else
      var v := DoValue(objs[0], fc);
      (if v.Some? then [v.value] else []) + DoValues(objs[1..], fc)
  }

  // Types

  // The width IEC 61850-8-1 gives an integer; 32 when the basic type says none.
  function Width(b: BType): nat
  {
    match b
    case Enum => 8
    case Int8 => 8
    case Int16 => 16
    case Int32 => 32
    case Int64 => 64
    case Int8U => 8
    case Int16U => 16
    case Int24U => 24
    case Int32U => 32
    case OtherType => 32
  }

  function ValueType(v: Held): TypeSpec
    decreases v
  {
    match v
    case Bits(_, n) => BitStringType(-(n as int))
    case Integer(_) => IntegerType(32)
    case Unsigned(_) => UnsignedType(32)
    case VisibleString(_) => VisibleStringType(129)
    case OctetString(_) => OctetStringType(64)
    case Array(children) =>
      ArrayType(|children|, if |children| > 0 then ValueType(children[0]) else BooleanType)
    case Structure(_) => StructureType([])
    case Boolean(_) => BooleanType
    case Float32(_) => Float32Type
    case Float64(_) => Float64Type
    case GeneralizedTime(_) => GeneralizedTimeType
    case BinaryTime(_) => BinaryTimeType
    case MMSString(_) => MMSStringType(0)
    case UTCTime(_) => UTCTimeType
  }

  function LeafType(b: BType, v: Held): TypeSpec
  {
    match v
    case Integer(_) => IntegerType(Width(b))
    case Unsigned(_) => UnsignedType(Width(b))
    case _ => ValueType(v)
  }

  // The types of leaves as IEC 61850-8-1 has them: the width of an integer by its
  // basic type, and the lengths of strings the server announces.
  const WIDTHS: map<BType, int> := map[
    Int8 := 8, Int16 := 16, Int32 := 32, Int64 := 64, Int8U := 8, Int16U := 16, Int24U := 24, Int32U := 32,
    Enum := 8, OtherType := 32]

  lemma LeafDescribed(b: BType, v: Held)
    ensures b in WIDTHS
    ensures v.Integer? ==> LeafType(b, v) == IntegerType(WIDTHS[b])
    ensures v.Unsigned? ==> LeafType(b, v) == UnsignedType(WIDTHS[b])
    ensures v.VisibleString? ==> LeafType(b, v) == VisibleStringType(129)
    ensures v.OctetString? ==> LeafType(b, v) == OctetStringType(64)
    ensures v.Bits? ==> LeafType(b, v) == BitStringType(-(v.bitLen as int))
  {}

  function DaType(a: Attribute): TypeSpec
    decreases a
  {
    if a.children == [] then
      if a.value.None? then BooleanType else LeafType(a.btype, a.value.value)
    else
      var ts := StructureType(DaTypes(a.children));
      if a.kind.ArrayKind? then ArrayType(a.count, ts) else ts
  }

  function DaTypes(attrs: seq<Attribute>): (cs: seq<Component>)
    ensures |cs| == |attrs|
    decreases attrs
  {
    if attrs == [] then [] else [Component(attrs[0].name, DaType(attrs[0]))] + DaTypes(attrs[1..])
  }

  function DoType(o: DataObject, fc: FC): TypeSpec
    decreases o, 0
  {
    StructureType(DaTypes(Under(o.attributes, fc)) + DoTypes(o.objects, fc))
  }

  function DoTypes(objs: seq<DataObject>, fc: FC): seq<Component>
    decreases objs, 1
  {
    if objs == [] then []
    else (if HasFC(objs[0], fc) then [Component(objs[0].name, DoType(objs[0], fc))] else []) + DoTypes(objs[1..], fc)
  }

  // A value is of a type: the same kind, the same members in the same order,
  // the same array length, the same number of bits, and an integer within its
  // width.
  ghost predicate Conforms(v: Value, t: TypeSpec)
    decreases v
  {
    match t
    case ArrayType(n, e) => v.Array? && |v.children| == n && forall c | c in v.children :: Conforms(c, e)
    case StructureType(cs) => v.Structure? && |v.children| == |cs| && ConformAll(v.children, cs)
    case BooleanType => v.Boolean?
    case BitStringType(n) => v.Bits? && v.bitLen == -(n as int)
    case IntegerType(n) => v.Integer? && n > 0 && -Half(n) <= v.i < Half(n)
    case UnsignedType(n) => v.Unsigned? && n > 0 && v.u < 2 * Half(n)
    case Float32Type => v.Float32?
    case Float64Type => v.Float64?
    case OctetStringType(_) => v.OctetString?
    case VisibleStringType(_) => v.VisibleString?
    case GeneralizedTimeType => v.GeneralizedTime?
    case BinaryTimeType => v.BinaryTime?
    case MMSStringType(_) => v.MMSString?
    case UTCTimeType => v.UTCTime?
  }

  ghost predicate ConformAll(vs: seq<Value>, cs: seq<Component>)
    decreases vs
  {
    |vs| == |cs| && (vs == [] || (Conforms(vs[0], cs[0].spec) && ConformAll(vs[1..], cs[1..])))
  }

  // 2^(n - 1) for the widths there are.
  function Half(n: int): int
  {
    if n == 8 then 0x80
    else if n == 16 then 0x8000
    else if n == 24 then 0x80_0000
    else if n == 32 then 0x8000_0000
    else if n == 64 then 0x8000_0000_0000_0000
    else 0
  }

  // A value a leaf's own type describes: the members of an array are alike, a
  // structure has no members, and an integer fits.
  ghost predicate Regular(v: Held)
    decreases v
  {
    match v
    case Integer(i) => -0x8000_0000 <= i < 0x8000_0000
    case Unsigned(u) => u < 0x1_0000_0000
    case Structure(children) => children == []
    case Array(children) => forall c | c in children :: Regular(c) && ValueType(c) == ValueType(children[0])
    case _ => true
  }

  ghost predicate Fits(b: BType, v: Held)
  {
    match v
    case Integer(i) => -Half(Width(b)) <= i < Half(Width(b))
    case Unsigned(u) => u < 2 * Half(Width(b))
    case _ => Regular(v)
  }

  lemma {:induction false} ConformsIsRegular(v: Held, x: Held)
    ensures Conforms(v, ValueType(x)) <==> Regular(v) && ValueType(v) == ValueType(x)
    decreases v
  {
    if v.Array? {
      if x.Array? && |x.children| == |v.children| > 0 {
        MembersAreRegular(v.children, x.children[0]);
      }
    }
  }

  lemma {:induction false} MembersAreRegular(vs: seq<Value>, x: Held)
    requires forall c | c in vs :: Holdable(c)
    ensures
      (forall c | c in vs :: Conforms(c, ValueType(x))) <==>
      (forall c | c in vs :: Regular(c) && ValueType(c) == ValueType(x))
    decreases vs, 0
  {
    hide Conforms, Regular, ValueType;
    forall c | c in vs
      ensures Conforms(c, ValueType(x)) <==> Regular(c) && ValueType(c) == ValueType(x)
    {
      ConformsIsRegular(c, x);
    }
  }

  // A leaf's value is of the leaf's type exactly when it is regular.
  lemma LeafConforms(b: BType, v: Held)
    ensures Conforms(v, LeafType(b, v)) <==> Fits(b, v)
  {
    if !v.Integer? && !v.Unsigned? {
      ConformsIsRegular(v, v);
    }
  }

  // Trees

  const DOLLAR: byte := 0x24

  predicate Plain(name: Bytes) { DOLLAR !in name }

  // Names are plain and unique among siblings, children have their parent's
  // constraint, and every leaf has a value of the type it is described by.
  ghost predicate SoundAttribute(a: Attribute)
    decreases a
  {
    && Plain(a.name)
    && (a.children == [] ==> if a.value.Some? then Fits(a.btype, a.value.value) else !a.kind.NoKind?)
    && (forall i | 0 <= i < |a.children| :: SoundAttribute(a.children[i]) && a.children[i].fc == a.fc)
    && (forall i, j | 0 <= i < j < |a.children| :: a.children[i].name != a.children[j].name)
  }

  // Attributes may share a name under different constraints.
  ghost predicate SoundObject(o: DataObject)
    decreases o
  {
    && Plain(o.name)
    && (forall i | 0 <= i < |o.attributes| :: SoundRoot(o.attributes[i]))
    && (forall i, j | 0 <= i < j < |o.attributes| ::
          o.attributes[i].name != o.attributes[j].name || o.attributes[i].fc != o.attributes[j].fc)
    && (forall i | 0 <= i < |o.objects| :: SoundObject(o.objects[i]))
    && (forall i, j | 0 <= i < j < |o.objects| :: o.objects[i].name != o.objects[j].name)
    && (forall i, j | 0 <= i < |o.attributes| && 0 <= j < |o.objects| :: o.attributes[i].name != o.objects[j].name)
  }

  ghost predicate SoundRoot(a: Attribute)
  {
    SoundAttribute(a) && Constrained(a.fc, a.fcName) && Plain(a.fcName)
  }

  ghost predicate SoundNode(ln: LogicalNode)
  {
    && Plain(ln.name) && ln.name != []
    && (forall i | 0 <= i < |ln.objects| :: SoundObject(ln.objects[i]))
    && (forall i, j | 0 <= i < j < |ln.objects| :: ln.objects[i].name != ln.objects[j].name)
  }

  ghost predicate SoundAttributes(attrs: seq<Attribute>)
  {
    forall i | 0 <= i < |attrs| :: SoundAttribute(attrs[i])
  }

  // Every attribute has a value, of its type.
  lemma {:induction false} AttributeConforms(a: Attribute)
    requires SoundAttribute(a)
    ensures DaValue(a).Some? && Conforms(DaValue(a).value, DaType(a))
    decreases a, 0
  {
    hide Fits, LeafType, ValueType;
    if a.children == [] {
      if a.value.Some? {
        LeafConforms(a.btype, a.value.value);
      }
    } else {
      AttributesConform(a.children);
    }
  }

  lemma {:induction false} AttributesConform(attrs: seq<Attribute>)
    requires SoundAttributes(attrs)
    ensures DaValues(attrs).Some? && ConformAll(DaValues(attrs).value, DaTypes(attrs))
    decreases attrs, 1
  {
    hide SoundAttribute, DaValue, DaType, Conforms;
    if attrs != [] {
      assert SoundAttribute(attrs[0]);
      AttributeConforms(attrs[0]);
      AttributesConform(attrs[1..]);
      FirstConforms(
        DaValue(attrs[0]).value, DaValues(attrs[1..]).value,
        Component(attrs[0].name, DaType(attrs[0])), DaTypes(attrs[1..]));
    }
  }

  lemma FirstConforms(v: Value, vs: seq<Value>, c: Component, cs: seq<Component>)
    requires Conforms(v, c.spec) && ConformAll(vs, cs)
    ensures ConformAll([v] + vs, [c] + cs)
  {
    hide Conforms;
    assert ([v] + vs)[1..] == vs && ([c] + cs)[1..] == cs;
  }

  lemma {:induction false} ConcatConforms(vs: seq<Value>, cs: seq<Component>, ws: seq<Value>, ds: seq<Component>)
    requires ConformAll(vs, cs) && ConformAll(ws, ds)
    ensures ConformAll(vs + ws, cs + ds) && |vs + ws| == |cs + ds|
    decreases |vs|
  {
    hide Conforms;
    if vs == [] {
      assert vs + ws == ws && cs + ds == ds;
    } else {
      ConcatConforms(vs[1..], cs[1..], ws, ds);
      assert (vs + ws)[1..] == vs[1..] + ws && (cs + ds)[1..] == cs[1..] + ds;
    }
  }

  // An object has a value under a constraint exactly when it has the
  // constraint, and then it is of the object's type.
  lemma {:induction false} ObjectConforms(o: DataObject, fc: FC)
    requires SoundObject(o)
    ensures DoValue(o, fc).Some? <==> HasFC(o, fc)
    ensures HasFC(o, fc) ==> Conforms(DoValue(o, fc).value, DoType(o, fc))
    decreases o, 0
  {
    hide DaValues, DaTypes, DoValues, DoTypes, SoundObject, SoundAttributes, ConformAll, Under;
    ObjectParts(o);
    UnderSound(o.attributes, fc);
    AttributesConform(Under(o.attributes, fc));
    ObjectsConform(o.objects, fc);
    ConcatConforms(
      DaValues(Under(o.attributes, fc)).value, DaTypes(Under(o.attributes, fc)),
      DoValues(o.objects, fc), DoTypes(o.objects, fc));
  }

  lemma ObjectParts(o: DataObject)
    requires SoundObject(o)
    ensures SoundAttributes(o.attributes)
    ensures forall i | 0 <= i < |o.objects| :: SoundObject(o.objects[i])
  {
    hide SoundAttribute, Constrained;
  }

  lemma {:induction false} UnderSound(attrs: seq<Attribute>, fc: FC)
    requires SoundAttributes(attrs)
    ensures SoundAttributes(Under(attrs, fc))
    ensures Under(attrs, fc) == [] <==> forall i | 0 <= i < |attrs| :: attrs[i].fc != fc
    decreases |attrs|
  {
    hide SoundAttribute;
    if attrs != [] {
      UnderSound(attrs[1..], fc);
    }
  }

  lemma {:induction false} ObjectsConform(objs: seq<DataObject>, fc: FC)
    requires forall i | 0 <= i < |objs| :: SoundObject(objs[i])
    ensures ConformAll(DoValues(objs, fc), DoTypes(objs, fc))
    ensures DoValues(objs, fc) == [] <==> forall i | 0 <= i < |objs| :: !HasFC(objs[i], fc)
    decreases objs, 1
  {
    hide SoundObject, HasFC, DoValue, DoType, Conforms;
    if objs != [] {
      ObjectConforms(objs[0], fc);
      ObjectsConform(objs[1..], fc);
      if HasFC(objs[0], fc) {
        FirstConforms(
          DoValue(objs[0], fc).value, DoValues(objs[1..], fc),
          Component(objs[0].name, DoType(objs[0], fc)), DoTypes(objs[1..], fc));
      } else {
        assert DoValues(objs, fc) == DoValues(objs[1..], fc) && DoTypes(objs, fc) == DoTypes(objs[1..], fc);
      }
    }
  }

  // Any tree

  // The attribute has a value at all: no leaf is of an unknown basic type.
  predicate Valued(a: Attribute)
    decreases a
  {
    if a.children == [] then a.value.Some? || !a.kind.NoKind?
    else forall i | 0 <= i < |a.children| :: Valued(a.children[i])
  }

  // And every leaf fits its type; the leaves of an array of no elements need not.
  ghost predicate Apt(a: Attribute)
    decreases a
  {
    if a.children == [] then if a.value.Some? then Fits(a.btype, a.value.value) else !a.kind.NoKind?
    else if a.kind.ArrayKind? && a.count == 0 then Valued(a)
    else forall i | 0 <= i < |a.children| :: Apt(a.children[i])
  }

  // An object all of whose attributes under the constraint are apt, and all of
  // whose objects that have it.
  ghost predicate AptObject(o: DataObject, fc: FC)
    decreases o
  {
    && (forall i | 0 <= i < |o.attributes| && o.attributes[i].fc == fc :: Apt(o.attributes[i]))
    && (forall i | 0 <= i < |o.objects| && HasFC(o.objects[i], fc) :: AptObject(o.objects[i], fc))
  }

  lemma {:induction false} ValuedExactly(a: Attribute)
    ensures DaValue(a).Some? <==> Valued(a)
    decreases a, 0
  {
    if a.children != [] {
      AllValuedExactly(a.children);
    }
  }

  lemma {:induction false} AllValuedExactly(attrs: seq<Attribute>)
    ensures DaValues(attrs).Some? <==> forall i | 0 <= i < |attrs| :: Valued(attrs[i])
    decreases attrs, 1
  {
    hide DaValue, Valued;
    if attrs != [] {
      ValuedExactly(attrs[0]);
      AllValuedExactly(attrs[1..]);
      assert attrs == [attrs[0]] + attrs[1..];
    }
  }

  lemma ConformAllSplits(v: Value, vs: seq<Value>, c: Component, cs: seq<Component>)
    ensures ConformAll([v] + vs, [c] + cs) <==> Conforms(v, c.spec) && ConformAll(vs, cs)
  {
    hide Conforms;
    assert ([v] + vs)[1..] == vs && ([c] + cs)[1..] == cs;
  }

  lemma {:induction false} ConcatSplits(vs: seq<Value>, cs: seq<Component>, ws: seq<Value>, ds: seq<Component>)
    requires |vs| == |cs|
    ensures ConformAll(vs + ws, cs + ds) <==> ConformAll(vs, cs) && ConformAll(ws, ds)
    decreases |vs|
  {
    hide Conforms;
    if vs == [] {
      assert vs + ws == ws && cs + ds == ds;
    } else {
      ConcatSplits(vs[1..], cs[1..], ws, ds);
      ConformAllSplits(vs[0], vs[1..] + ws, cs[0], cs[1..] + ds);
      assert vs + ws == [vs[0]] + (vs[1..] + ws) && cs + ds == [cs[0]] + (cs[1..] + ds);
    }
  }

  // An attribute has a value of its type exactly when it is apt.
  lemma {:induction false} AttributeExactly(a: Attribute)
    ensures DaValue(a).Some? && Conforms(DaValue(a).value, DaType(a)) <==> Apt(a)
    decreases a, 0
  {
    ValuedExactly(a);
    if a.children == [] {
      if a.value.Some? {
        hide Fits, LeafType, ValueType;
        LeafConforms(a.btype, a.value.value);
      }
    } else {
      AttributesExactly(a.children);
      if DaValue(a).Some? {
        ComposedExactly(a);
      }
    }
  }

  // A composed value is of its type exactly when its members are, or there are
  // no elements.
  lemma ComposedExactly(a: Attribute)
    requires a.children != [] && DaValues(a.children).Some?
    ensures DaValue(a).Some?
    ensures
      Conforms(DaValue(a).value, DaType(a)) <==>
      (a.kind.ArrayKind? && a.count == 0) || ConformAll(DaValues(a.children).value, DaTypes(a.children))
  {
    hide DaValues, DaTypes, ConformAll;
    var elem, ts := Structure(DaValues(a.children).value), StructureType(DaTypes(a.children));
    assert Conforms(elem, ts) <==> ConformAll(DaValues(a.children).value, DaTypes(a.children));
    if a.kind.ArrayKind? && a.count > 0 {
      assert DaValue(a).value.children[0] == elem;
    }
  }

  lemma {:induction false} AttributesExactly(attrs: seq<Attribute>)
    ensures
      DaValues(attrs).Some? && ConformAll(DaValues(attrs).value, DaTypes(attrs)) <==>
      forall i | 0 <= i < |attrs| :: Apt(attrs[i])
    decreases attrs, 1
  {
    hide DaValue, DaType, Conforms, Apt;
    if attrs != [] {
      var a, rest := attrs[0], attrs[1..];
      AttributeExactly(a);
      AttributesExactly(rest);
      assert attrs == [a] + rest;
      if DaValue(a).Some? && DaValues(rest).Some? {
        ConformAllSplits(DaValue(a).value, DaValues(rest).value, Component(a.name, DaType(a)), DaTypes(rest));
      }
    }
  }

  lemma {:induction false} UnderExactly(attrs: seq<Attribute>, fc: FC)
    ensures
      (forall i | 0 <= i < |Under(attrs, fc)| :: Apt(Under(attrs, fc)[i])) <==>
      forall i | 0 <= i < |attrs| && attrs[i].fc == fc :: Apt(attrs[i])
    ensures Under(attrs, fc) == [] <==> forall i | 0 <= i < |attrs| :: attrs[i].fc != fc
    decreases |attrs|
  {
    hide Apt;
    if attrs != [] {
      var a, rest := attrs[0], attrs[1..];
      UnderExactly(rest, fc);
      assert attrs == [a] + rest;
      assert Under(attrs, fc) == (if a.fc == fc then [a] else []) + Under(rest, fc);
    }
  }

  // What has a value under a constraint has the constraint.
  lemma {:induction false} ValuedHasFC(o: DataObject, fc: FC)
    ensures DoValue(o, fc).Some? ==> HasFC(o, fc)
    decreases o, 0
  {
    hide DaValues, DoValues, Under;
    UnderExactly(o.attributes, fc);
    ValuedHaveFC(o.objects, fc);
    NoneUnder(fc);
    if Under(o.attributes, fc) == [] {
      NoValues();
    }
  }

  lemma {:induction false} ValuedHaveFC(objs: seq<DataObject>, fc: FC)
    ensures |DoValues(objs, fc)| <= |DoTypes(objs, fc)|
    ensures DoValues(objs, fc) != [] ==> exists i | 0 <= i < |objs| :: HasFC(objs[i], fc)
    decreases objs, 1
  {
    hide DoValue, DoType, HasFC;
    if objs != [] {
      ValuedHasFC(objs[0], fc);
      ValuedHaveFC(objs[1..], fc);
      if DoValues(objs[1..], fc) != [] {
        var i :| 0 <= i < |objs[1..]| && HasFC(objs[1..][i], fc);
        assert HasFC(objs[i + 1], fc);
      }
    }
  }

  // Of any tree: an object under a constraint reads as a value of its described
  // type exactly when it has the constraint and is apt. An object below it that
  // cannot be composed is passed by in the value and not in the type.
  lemma {:induction false} ObjectConformsExactly(o: DataObject, fc: FC)
    ensures
      DoValue(o, fc).Some? && Conforms(DoValue(o, fc).value, DoType(o, fc)) <==>
      HasFC(o, fc) && AptObject(o, fc)
    decreases o, 0
  {
    hide DaValues, DaTypes, DoValues, DoTypes, ConformAll, Under, Apt;
    var under := Under(o.attributes, fc);
    UnderExactly(o.attributes, fc);
    AttributesExactly(under);
    ObjectsConformExactly(o.objects, fc);
    ValuedHasFC(o, fc);
    if DaValues(under).Some? {
      ConcatSplits(DaValues(under).value, DaTypes(under), DoValues(o.objects, fc), DoTypes(o.objects, fc));
      MembersExactly(o, fc);
    }
  }

  lemma MembersExactly(o: DataObject, fc: FC)
    requires DaValues(Under(o.attributes, fc)).Some?
    ensures
      var vs := DaValues(Under(o.attributes, fc)).value + DoValues(o.objects, fc);
      var cs := DaTypes(Under(o.attributes, fc)) + DoTypes(o.objects, fc);
      DoValue(o, fc).Some? && Conforms(DoValue(o, fc).value, DoType(o, fc)) <==> vs != [] && ConformAll(vs, cs)
  {
    hide DaValues, DaTypes, DoValues, DoTypes, Under;
  }

  lemma {:induction false} ObjectsConformExactly(objs: seq<DataObject>, fc: FC)
    ensures
      ConformAll(DoValues(objs, fc), DoTypes(objs, fc)) <==>
      forall i | 0 <= i < |objs| && HasFC(objs[i], fc) :: AptObject(objs[i], fc)
    ensures
      ConformAll(DoValues(objs, fc), DoTypes(objs, fc)) && (exists i | 0 <= i < |objs| :: HasFC(objs[i], fc)) ==>
      DoValues(objs, fc) != []
    decreases objs, 1
  {
    hide AptObject, HasFC, DoValue, DoType, Conforms;
    if objs != [] {
      var o, rest := objs[0], objs[1..];
      ObjectConformsExactly(o, fc);
      ValuedHasFC(o, fc);
      ObjectsConformExactly(rest, fc);
      ValuedHaveFC(rest, fc);
      ObjectsStep(objs, fc);
      assert objs == [o] + rest;
    }
  }

  lemma ObjectsStep(objs: seq<DataObject>, fc: FC)
    requires objs != [] && (DoValue(objs[0], fc).Some? ==> HasFC(objs[0], fc))
    requires |DoValues(objs[1..], fc)| <= |DoTypes(objs[1..], fc)|
    ensures
      var o, rest := objs[0], objs[1..];
      && (ConformAll(DoValues(objs, fc), DoTypes(objs, fc)) <==>
            && ConformAll(DoValues(rest, fc), DoTypes(rest, fc))
            && (HasFC(o, fc) ==> DoValue(o, fc).Some? && Conforms(DoValue(o, fc).value, DoType(o, fc))))
      && (DoValue(o, fc).Some? ==> DoValues(objs, fc) != [])
      && (DoValue(o, fc).None? ==> DoValues(objs, fc) == DoValues(rest, fc))
  {
    hide HasFC, DoValue, DoType, Conforms;
    var o, rest := objs[0], objs[1..];
    if DoValue(o, fc).Some? {
      ConformAllSplits(
        DoValue(o, fc).value, DoValues(rest, fc), Component(o.name, DoType(o, fc)), DoTypes(rest, fc));
    } else {
      assert DoValues(objs, fc) == DoValues(rest, fc);
      if !HasFC(o, fc) {
        assert DoTypes(objs, fc) == DoTypes(rest, fc);
      }
    }
  }

  lemma TwoMembers(o: DataObject, a: DataObject, b: DataObject, fc: FC)
    requires o.attributes == [] && o.objects == [a, b]
    ensures DoType(o, fc) == StructureType(DoTypes([a, b], fc))
    ensures DoValues([a, b], fc) != [] ==> DoValue(o, fc) == Some(Structure(DoValues([a, b], fc)))
  {
    hide DoValues, DoTypes;
    NoneUnder(fc);
    assert [] + DoTypes([a, b], fc) == DoTypes([a, b], fc) && [] + DoValues([a, b], fc) == DoValues([a, b], fc);
  }

  // The object that shows it: two objects below it, the first with a leaf of an
  // unknown basic type. It reads as a structure of one member, the second's, and
  // is described as one of two.
  lemma PassedByIsMisaligned(name: Bytes, other: Bytes, fc: FC)
    requires name != other
    ensures
      var unknown := Attribute(name, fc, [], NoKind, OtherType, 0, [], None);
      var known := unknown.(value := Some(Boolean(true)));
      var o := DataObject(name, [], [DataObject(name, [unknown], []), DataObject(other, [known], [])]);
      && DoValue(o, fc) == Some(Structure([Structure([Boolean(true)])]))
      && |DoType(o, fc).components| == 2 && !Conforms(DoValue(o, fc).value, DoType(o, fc))
  {
    var unknown := Attribute(name, fc, [], NoKind, OtherType, 0, [], None);
    var known := unknown.(value := Some(Boolean(true)));
    var a, b := DataObject(name, [unknown], []), DataObject(other, [known], []);
    var objs := [a, b];
    var o := DataObject(name, [], objs);
    assert Under([unknown], fc) == [unknown] && Under([known], fc) == [known];
    assert [known][1..] == [] && DaValues([]) == Some([]) && [Boolean(true)] + [] == [Boolean(true)];
    assert DaValues([unknown]).None? && DaValues([known]) == Some([Boolean(true)]);
    assert DoValue(a, fc).None? && DoValue(b, fc) == Some(Structure([Boolean(true)]));
    assert a.attributes[0].fc == fc && b.attributes[0].fc == fc;
    assert HasFC(a, fc) && HasFC(b, fc);
    assert objs[1..] == [b] && [b][1..] == [];
    hide HasFC;
    assert DoValues([b], fc) == [Structure([Boolean(true)])] && DoValues(objs, fc) == DoValues([b], fc);
    hide DoType;
    assert DoTypes([], fc) == [] && DoTypes([b], fc) == [Component(other, DoType(b, fc))];
    assert DoTypes(objs, fc) == [Component(name, DoType(a, fc))] + DoTypes([b], fc);
    TwoMembers(o, a, b, fc);
  }

  // What is read, leaf by leaf

  // The values without members a value is made of, in order.
  function Leaves(v: Value): (vs: seq<Value>)
    decreases v, 1
  {
    if v.Array? || v.Structure? then LeavesOfAll(v.children) else [v]
  }

  function LeavesOfAll(vs: seq<Value>): (ls: seq<Value>)
    decreases vs, 0
  {
    if vs == [] then [] else Leaves(vs[0]) + LeavesOfAll(vs[1..])
  }

  function Repeated<T>(s: seq<T>, n: nat): seq<T>
  {
    if n == 0 then [] else s + Repeated(s, n - 1)
  }

  // What the leaves of an attribute hold, in the order of the document and once
  // for each element of an array; a leaf that holds nothing stands for false.
  function HeldBy(a: Attribute): (vs: seq<Value>)
    decreases a, 0
  {
    if a.children == [] then Leaves(if a.value.Some? then a.value.value else Boolean(false))
    else Repeated(HeldByAll(a.children), if a.kind.ArrayKind? then a.count else 1)
  }

  function HeldByAll(attrs: seq<Attribute>): (vs: seq<Value>)
    decreases attrs, 1
  {
    if attrs == [] then [] else HeldBy(attrs[0]) + HeldByAll(attrs[1..])
  }

  // No attribute of the object under the constraint lacks a value, and there is
  // one, or an object below that is composable.
  predicate Composable(o: DataObject, fc: FC)
    decreases o
  {
    && (forall i | 0 <= i < |o.attributes| && o.attributes[i].fc == fc :: Valued(o.attributes[i]))
    && (
      || (exists i | 0 <= i < |o.attributes| :: o.attributes[i].fc == fc)
      || (exists i | 0 <= i < |o.objects| :: Composable(o.objects[i], fc)))
  }

  function HeldUnder(o: DataObject, fc: FC): (vs: seq<Value>)
    decreases o, 0
  {
    HeldByRoots(o.attributes, fc) + HeldByObjects(o.objects, fc)
  }

  function HeldByRoots(attrs: seq<Attribute>, fc: FC): (vs: seq<Value>)
  {
    if attrs == [] then [] else (if attrs[0].fc == fc then HeldBy(attrs[0]) else []) + HeldByRoots(attrs[1..], fc)
  }

  function HeldByObjects(objs: seq<DataObject>, fc: FC): (vs: seq<Value>)
    decreases objs, 1
  {
    if objs == [] then []
    else (if Composable(objs[0], fc) then HeldUnder(objs[0], fc) else []) + HeldByObjects(objs[1..], fc)
  }

  lemma {:induction false} LeavesConcat(vs: seq<Value>, ws: seq<Value>)
    ensures LeavesOfAll(vs + ws) == LeavesOfAll(vs) + LeavesOfAll(ws)
    decreases |vs|
  {
    hide Leaves;
    if vs == [] {
      assert vs + ws == ws;
    } else {
      LeavesConcat(vs[1..], ws);
      assert (vs + ws)[1..] == vs[1..] + ws;
      assert Leaves(vs[0]) + (LeavesOfAll(vs[1..]) + LeavesOfAll(ws))
          == Leaves(vs[0]) + LeavesOfAll(vs[1..]) + LeavesOfAll(ws);
    }
  }

  lemma {:induction false} LeavesRepeated(elem: Value, n: nat)
    ensures LeavesOfAll(seq(n, _ => elem)) == Repeated(Leaves(elem), n)
    decreases n
  {
    hide Leaves;
    var all := seq(n, _ => elem);
    if n > 0 {
      assert all[1..] == seq(n - 1, _ => elem);
      LeavesRepeated(elem, n - 1);
    }
  }

  // An attribute that has a value reads as what its leaves hold.
  lemma {:induction false} AttributeLeaves(a: Attribute)
    requires Valued(a)
    ensures DaValue(a).Some? && Leaves(DaValue(a).value) == HeldBy(a)
    decreases a, 0
  {
    hide Leaves;
    ValuedExactly(a);
    if a.children == [] {
      assert DaValue(a).value == if a.value.Some? then a.value.value else Boolean(false);
    } else {
      AttributesLeaves(a.children);
      ComposedLeaves(a);
    }
  }

  lemma ComposedLeaves(a: Attribute)
    requires a.children != [] && DaValues(a.children).Some?
    requires LeavesOfAll(DaValues(a.children).value) == HeldByAll(a.children)
    ensures DaValue(a).Some? && Leaves(DaValue(a).value) == HeldBy(a)
  {
    hide DaValues, HeldByAll;
    var elem := Structure(DaValues(a.children).value);
    assert Leaves(elem) == HeldByAll(a.children);
    assert Repeated(Leaves(elem), 1) == Leaves(elem) by { assert Leaves(elem) + [] == Leaves(elem); }
    if a.kind.ArrayKind? {
      LeavesRepeated(elem, a.count);
    }
  }

  lemma {:induction false} AttributesLeaves(attrs: seq<Attribute>)
    requires forall i | 0 <= i < |attrs| :: Valued(attrs[i])
    ensures DaValues(attrs).Some? && LeavesOfAll(DaValues(attrs).value) == HeldByAll(attrs)
    decreases attrs, 1
  {
    hide Valued, DaValue, Leaves, HeldBy;
    if attrs != [] {
      AttributeLeaves(attrs[0]);
      AttributesLeaves(attrs[1..]);
      assert ([DaValue(attrs[0]).value] + DaValues(attrs[1..]).value)[1..] == DaValues(attrs[1..]).value;
    }
  }

  lemma {:induction false} UnderLeaves(attrs: seq<Attribute>, fc: FC)
    ensures HeldByAll(Under(attrs, fc)) == HeldByRoots(attrs, fc)
    ensures
      (forall i | 0 <= i < |Under(attrs, fc)| :: Valued(Under(attrs, fc)[i])) <==>
      forall i | 0 <= i < |attrs| && attrs[i].fc == fc :: Valued(attrs[i])
    ensures Under(attrs, fc) == [] <==> forall i | 0 <= i < |attrs| :: attrs[i].fc != fc
    decreases |attrs|
  {
    hide HeldBy, Valued;
    if attrs != [] {
      var a, rest := attrs[0], attrs[1..];
      UnderLeaves(rest, fc);
      assert attrs == [a] + rest;
      if a.fc == fc {
        assert Under(attrs, fc) == [a] + Under(rest, fc);
        assert ([a] + Under(rest, fc))[1..] == Under(rest, fc);
      } else {
        assert Under(attrs, fc) == Under(rest, fc);
        assert HeldByRoots(attrs, fc) == HeldByRoots(rest, fc);
      }
    }
  }

  // Of any tree: an object has a value under a constraint exactly when it is
  // composable, and then it reads as what the leaves under the constraint hold.
  lemma {:induction false} ObjectLeaves(o: DataObject, fc: FC)
    ensures DoValue(o, fc).Some? <==> Composable(o, fc)
    ensures Composable(o, fc) ==> Leaves(DoValue(o, fc).value) == HeldUnder(o, fc)
    decreases o, 0
  {
    hide DaValues, DoValues, HeldByRoots, HeldByObjects, HeldByAll, LeavesOfAll, Under, Valued;
    var under := Under(o.attributes, fc);
    UnderLeaves(o.attributes, fc);
    AllValuedExactly(under);
    ObjectsLeaves(o.objects, fc);
    if DaValues(under).Some? {
      AttributesLeaves(under);
      LeavesConcat(DaValues(under).value, DoValues(o.objects, fc));
      LeavesOfMembers(DaValues(under).value + DoValues(o.objects, fc));
    }
  }

  lemma LeavesOfMembers(members: seq<Value>)
    ensures Leaves(Structure(members)) == LeavesOfAll(members)
  {}

  lemma {:induction false} ObjectsLeaves(objs: seq<DataObject>, fc: FC)
    ensures LeavesOfAll(DoValues(objs, fc)) == HeldByObjects(objs, fc)
    ensures DoValues(objs, fc) != [] <==> exists i | 0 <= i < |objs| :: Composable(objs[i], fc)
    decreases objs, 1
  {
    hide DoValue, Composable, HeldUnder, Leaves;
    if objs != [] {
      var o, rest := objs[0], objs[1..];
      ObjectLeaves(o, fc);
      ObjectsLeaves(rest, fc);
      assert objs == [o] + rest;
      if Composable(o, fc) {
        assert ([DoValue(o, fc).value] + DoValues(rest, fc))[1..] == DoValues(rest, fc);
      } else {
        assert DoValues(objs, fc) == DoValues(rest, fc) && HeldByObjects(objs, fc) == HeldByObjects(rest, fc);
      }
    }
  }

  // The loops

  function Before<T>(done: seq<T>, rest: Option<seq<T>>): Option<seq<T>>
  {
    if rest.None? then None else Some(done + rest.value)
  }

  lemma BeforeUnit<T>(done: seq<T>, r: Option<seq<T>>)
    ensures Before([], r) == r
    ensures Before(done, Some([])) == Some(done)
  {
    assert done + [] == done;
    if r.Some? {
      assert [] + r.value == r.value;
    }
  }

  lemma ValuesStep(done: seq<Value>, a: Attribute, rest: seq<Attribute>)
    ensures
      Before(done, DaValues([a] + rest)) ==
      if DaValue(a).None? then None else Before(done + [DaValue(a).value], DaValues(rest))
  {
    hide DaValue;
    assert ([a] + rest)[1..] == rest;
    if DaValue(a).Some? && DaValues(rest).Some? {
      var v, vs := DaValue(a).value, DaValues(rest).value;
      assert done + ([v] + vs) == done + [v] + vs;
    }
  }

  lemma TypesStep(done: seq<Component>, a: Attribute, rest: seq<Attribute>)
    ensures done + DaTypes([a] + rest) == done + [Component(a.name, DaType(a))] + DaTypes(rest)
  {
    hide DaType;
    assert ([a] + rest)[1..] == rest;
  }

  lemma UnderStep(attrs: seq<Attribute>, fc: FC, i: nat)
    requires i < |attrs|
    ensures attrs[i..] == [attrs[i]] + attrs[i + 1..]
    ensures Under(attrs[i..], fc) == (if attrs[i].fc == fc then [attrs[i]] else []) + Under(attrs[i + 1..], fc)
    ensures attrs[i].fc != fc ==> Under(attrs[i..], fc) == Under(attrs[i + 1..], fc)
  {
    assert attrs[i..][1..] == attrs[i + 1..];
  }

  lemma ObjectTypesStep(done: seq<Component>, objs: seq<DataObject>, fc: FC, i: nat)
    requires i < |objs|
    ensures
      done + DoTypes(objs[i..], fc) ==
      done + (if HasFC(objs[i], fc) then [Component(objs[i].name, DoType(objs[i], fc))] else [])
      + DoTypes(objs[i + 1..], fc)
  {
    hide DoType, HasFC;
    assert objs[i..][1..] == objs[i + 1..];
  }

  method ReadAttributes(attrs: seq<Attribute>) returns (r: Option<seq<Value>>)
    ensures r == DaValues(attrs)
    decreases attrs, 1
  {
    hide DaValue, DaValues, Before;
    var members: seq<Value> := [];
    BeforeUnit(members, DaValues(attrs));
    assert attrs[0..] == attrs;
    for i := 0 to |attrs|
      invariant DaValues(attrs) == Before(members, DaValues(attrs[i..]))
    {
      var v := ReadAttribute(attrs[i]);
      UnderStep(attrs, 0, i);
      ValuesStep(members, attrs[i], attrs[i + 1..]);
      if v.None? {
        return None;
      }
      members := members + [v.value];
    }
    NoValues();
    BeforeUnit(members, None);
    r := Some(members);
  }

  lemma NoValues()
    ensures DaValues([]) == Some([]) && DaTypes([]) == []
  {}

  method ReadAttribute(a: Attribute) returns (v: Option<Value>)
    ensures v == DaValue(a)
    decreases a, 0
  {
    hide DaValues;
    if a.children == [] {
      if a.value.Some? {
        return Some(a.value.value);
      }
      if a.kind.NoKind? {
        return None;
      }
      return Some(Boolean(false));
    }
    var members := ReadAttributes(a.children);
    if members.None? {
      return None;
    }
    var elem := Structure(members.value);
    if a.kind.ArrayKind? {
      var elems: seq<Value> := [];
      for i := 0 to a.count
        invariant elems == seq(i, _ => elem)
      {
        elems := elems + [elem];
      }
      return Some(Array(elems));
    }
    v := Some(elem);
  }

  method ReadObject(o: DataObject, fc: FC) returns (v: Option<Value>)
    ensures v == DoValue(o, fc)
    decreases o, 0
  {
    hide DaValues, DoValues, HasFC;
    var members := ReadUnder(o.attributes, fc);
    if members.None? {
      return None;
    }
    var subs := ReadObjects(o.objects, fc);
    var all := members.value + subs;
    v := if all == [] then None else Some(Structure(all));
  }

  method ReadUnder(attrs: seq<Attribute>, fc: FC) returns (r: Option<seq<Value>>)
    ensures r == DaValues(Under(attrs, fc))
  {
    hide DaValue, DaValues, Before, Under;
    var members: seq<Value> := [];
    BeforeUnit(members, DaValues(Under(attrs, fc)));
    assert attrs[0..] == attrs;
    for i := 0 to |attrs|
      invariant DaValues(Under(attrs, fc)) == Before(members, DaValues(Under(attrs[i..], fc)))
    {
      UnderStep(attrs, fc, i);
      if attrs[i].fc != fc {
        continue;
      }
      var v := ReadAttribute(attrs[i]);
      ValuesStep(members, attrs[i], Under(attrs[i + 1..], fc));
      if v.None? {
        return None;
      }
      members := members + [v.value];
    }
    NoneUnder(fc);
    BeforeUnit(members, None);
    r := Some(members);
  }

  lemma NoneUnder(fc: FC)
    ensures DaValues(Under([], fc)) == Some([]) && DaTypes(Under([], fc)) == []
  {}

  method ReadObjects(objs: seq<DataObject>, fc: FC) returns (members: seq<Value>)
    ensures members == DoValues(objs, fc)
    decreases objs, 1
  {
    hide DoValue, DoValues;
    members := [];
    assert objs[0..] == objs && members + DoValues(objs, fc) == DoValues(objs, fc);
    for i := 0 to |objs|
      invariant DoValues(objs, fc) == members + DoValues(objs[i..], fc)
    {
      var v := ReadObject(objs[i], fc);
      ObjectValuesStep(members, objs, fc, i);
      if v.Some? && |v.value.children| > 0 {
        members := members + [v.value];
      } else {
        assert members + [] == members;
      }
    }
    NoObjects(fc);
    assert objs[|objs|..] == [] && members + [] == members;
  }

  lemma ObjectValuesStep(done: seq<Value>, objs: seq<DataObject>, fc: FC, i: nat)
    requires i < |objs|
    ensures
      var v := DoValue(objs[i], fc);
      done + DoValues(objs[i..], fc) == done + (if v.Some? then [v.value] else []) + DoValues(objs[i + 1..], fc)
  {
    hide DoValue;
    assert objs[i..][1..] == objs[i + 1..];
  }

  method DescribeAttribute(a: Attribute) returns (ts: TypeSpec)
    ensures ts == DaType(a)
    decreases a, 0
  {
    hide LeafType, DaTypes;
    if a.children == [] {
      ts := if a.value.None? then BooleanType else LeafType(a.btype, a.value.value);
      return;
    }
    var components := DescribeAttributes(a.children);
    ts := StructureType(components);
    if a.kind.ArrayKind? {
      ts := ArrayType(a.count, ts);
    }
  }

  method DescribeAttributes(attrs: seq<Attribute>) returns (components: seq<Component>)
    ensures components == DaTypes(attrs)
    decreases attrs, 1
  {
    hide DaType, DaTypes;
    components := [];
    assert attrs[0..] == attrs;
    assert components + DaTypes(attrs) == DaTypes(attrs);
    for i := 0 to |attrs|
      invariant DaTypes(attrs) == components + DaTypes(attrs[i..])
    {
      var ts := DescribeAttribute(attrs[i]);
      UnderStep(attrs, 0, i);
      TypesStep(components, attrs[i], attrs[i + 1..]);
      components := components + [Component(attrs[i].name, ts)];
    }
    NoValues();
    assert components + [] == components;
  }

  method DescribeUnder(attrs: seq<Attribute>, fc: FC) returns (components: seq<Component>)
    ensures components == DaTypes(Under(attrs, fc))
  {
    hide DaType, DaTypes, Under;
    components := [];
    assert attrs[0..] == attrs;
    assert components + DaTypes(Under(attrs, fc)) == DaTypes(Under(attrs, fc));
    for i := 0 to |attrs|
      invariant DaTypes(Under(attrs, fc)) == components + DaTypes(Under(attrs[i..], fc))
    {
      UnderStep(attrs, fc, i);
      if attrs[i].fc == fc {
        var ts := DescribeAttribute(attrs[i]);
        TypesStep(components, attrs[i], Under(attrs[i + 1..], fc));
        components := components + [Component(attrs[i].name, ts)];
      }
    }
    NoneUnder(fc);
    assert components + [] == components;
  }

  method DescribeObject(o: DataObject, fc: FC) returns (ts: TypeSpec)
    ensures ts == DoType(o, fc)
    decreases o, 0
  {
    hide DaTypes, DoTypes;
    var components := DescribeUnder(o.attributes, fc);
    var subs := DescribeObjects(o.objects, fc);
    ts := StructureType(components + subs);
  }

  method DescribeObjects(objs: seq<DataObject>, fc: FC) returns (components: seq<Component>)
    ensures components == DoTypes(objs, fc)
    decreases objs, 1
  {
    hide DoType, DoTypes, HasFC;
    components := [];
    assert objs[0..] == objs;
    assert components + DoTypes(objs, fc) == DoTypes(objs, fc);
    for i := 0 to |objs|
      invariant DoTypes(objs, fc) == components + DoTypes(objs[i..], fc)
    {
      ObjectTypesStep(components, objs, fc, i);
      if HasFC(objs[i], fc) {
        var ts := DescribeObject(objs[i], fc);
        components := components + [Component(objs[i].name, ts)];
      } else {
        assert components + [] == components;
      }
    }
    NoObjects(fc);
    assert objs[|objs|..] == [] && components + [] == components;
  }

  lemma NoObjects(fc: FC)
    ensures DoTypes([], fc) == [] && DoValues([], fc) == []
  {}
}
