// Setting groups of one logical device (server/settinggroup.go) and the writes
// that reach them (server/handler.go).
//
// A request is one write under the model lock. Whether a value fits its
// attribute and the application agrees to it is given with the request.

module SettingGroups {
  import opened Options
  import opened Octets
  import opened MmsData

  // One setting: the active view, the edit view if there is one, and a value
  // for each group.
  datatype Setting = Setting(sg: Value, se: Option<Value>, groups: seq<Value>)

  // The attributes of the control block as clients read them.
  datatype Block = Block(actSG: int, editSG: int, cnfEdit: bool)

  datatype State = State(num: byte, act: byte, edit: byte, settings: seq<Setting>, block: Block)

  datatype Request =
    | WriteActSG(g: int, stored: bool)
    | WriteEditSG(g: int, stored: bool)
    | WriteCnfEdit(on: bool, stored: bool)
    | WriteEditValue(i: nat, v: Value, stored: bool)
    | WriteActiveValue(i: nat, v: Value)

  datatype Code = Success | ValueInvalid | Unavailable | Denied | Unsupported | Refused

  // Each setting has a value for every group, of which there is at least one.
  ghost predicate Shaped(s: State)
  {
    && s.num >= 1
    && forall i | 0 <= i < |s.settings| :: |s.settings[i].groups| == s.num as int
  }

  predicate Editing(s: State) { 1 <= s.edit <= s.num }

  function CheckWrite(s: State, r: Request): Code
  {
    match r
    case WriteActSG(v, _) => if v < 1 || v > s.num as int then ValueInvalid else Success
    case WriteEditSG(v, _) => if v < 0 || v > s.num as int then ValueInvalid else Success
    case WriteCnfEdit(on, _) => if on && !Editing(s) then Unavailable else Success
    // Only SE values may be written, and only while a group is edited.
    case WriteEditValue(i, _, _) =>
      if i >= |s.settings| || s.settings[i].se.None? then Unsupported
      else if !Editing(s) then Unavailable else Success
    case WriteActiveValue(i, _) => if i >= |s.settings| then Unsupported else Denied
  }

  function Switched(settings: seq<Setting>, g: nat): (out: seq<Setting>)
    requires forall i | 0 <= i < |settings| :: g < |settings[i].groups|
    ensures |out| == |settings|
    ensures forall i | 0 <= i < |settings| :: out[i] == settings[i].(sg := settings[i].groups[g])
  {
    seq(|settings|, i requires 0 <= i < |settings| => settings[i].(sg := settings[i].groups[g]))
  }

  function Opened(settings: seq<Setting>, g: nat): (out: seq<Setting>)
    requires forall i | 0 <= i < |settings| :: g < |settings[i].groups|
    ensures |out| == |settings|
    ensures forall i | 0 <= i < |settings| :: out[i] == OpenedOne(settings[i], g)
  {
    seq(|settings|, i requires 0 <= i < |settings| => OpenedOne(settings[i], g))
  }

  function OpenedOne(s: Setting, g: nat): Setting
    requires g < |s.groups|
  {
    if s.se.Some? then s.(se := Some(s.groups[g])) else s
  }

  function Confirmed(settings: seq<Setting>, g: nat, active: bool): (out: seq<Setting>)
    requires forall i | 0 <= i < |settings| :: g < |settings[i].groups|
    ensures |out| == |settings|
    ensures forall i | 0 <= i < |settings| :: out[i] == ConfirmedOne(settings[i], g, active)
  {
    seq(|settings|, i requires 0 <= i < |settings| => ConfirmedOne(settings[i], g, active))
  }

  function ConfirmedOne(s: Setting, g: nat, active: bool): Setting
    requires g < |s.groups|
  {
    if s.se.None? then s
    else s.(groups := s.groups[g := s.se.value], sg := if active then s.se.value else s.sg)
  }

  // An accepted write: the attribute takes the value, and the control block
  // acts on it. A group number is cut to an octet, which changes none that the
  // check lets through.
  function Apply(s: State, r: Request): State
    requires Shaped(s)
  {
    match r
    case WriteActSG(v, _) =>
      var g: byte := v % 0x100;
      if 1 <= g <= s.num then
        s.(act := g, block := s.block.(actSG := g), settings := Switched(s.settings, g as int - 1))
      else s.(block := s.block.(actSG := v))
    case WriteEditSG(v, _) =>
      var g: byte := v % 0x100;
      s.(edit := g, block := s.block.(editSG := g),
         settings := if 1 <= g <= s.num then Opened(s.settings, g as int - 1) else s.settings)
    case WriteCnfEdit(on, _) =>
      if on && Editing(s) then
        s.(edit := 0, block := s.block.(editSG := 0, cnfEdit := false),
           settings := Confirmed(s.settings, s.edit as int - 1, s.edit == s.act))
      else s.(block := s.block.(cnfEdit := on))
    case WriteEditValue(i, v, _) =>
      if i < |s.settings| then s.(settings := s.settings[i := s.settings[i].(se := Some(v))]) else s
    case WriteActiveValue(_, _) => s
  }

  datatype Reply = Reply(state: State, code: Code)

  function Write(s: State, r: Request): (reply: Reply)
    requires Shaped(s)
  {
    var code := CheckWrite(s, r);
    if code != Success then Reply(s, code)
    else if !r.WriteActiveValue? && !r.stored then Reply(s, Refused)
    else Reply(Apply(s, r), Success)
  }

  // The meaning: a store for each group, which of them is active, and while a
  // group is edited a copy of its store.

  datatype Edit = Edit(group: nat, buffer: seq<Value>)

  datatype Device = Device(stores: seq<seq<Value>>, active: int, edit: Option<Edit>, editable: seq<bool>)

  datatype Outcome = Outcome(device: Device, code: Code)

  function Serve(d: Device, r: Request): Outcome
  {
    match r
    case WriteActSG(v, stored) =>
      if !(1 <= v <= |d.stores|) then Outcome(d, ValueInvalid)
      else if !stored then Outcome(d, Refused)
      else Outcome(d.(active := v - 1), Success)
    case WriteEditSG(v, stored) =>
      if !(0 <= v <= |d.stores|) then Outcome(d, ValueInvalid)
      else if !stored then Outcome(d, Refused)
      else Outcome(d.(edit := if v == 0 then None else Some(Edit(v - 1, d.stores[v - 1]))), Success)
    case WriteCnfEdit(on, stored) =>
      if on && d.edit.None? then Outcome(d, Unavailable)
      else if !stored then Outcome(d, Refused)
      else if on && d.edit.value.group < |d.stores| then
        Outcome(d.(stores := d.stores[d.edit.value.group := d.edit.value.buffer], edit := None), Success)
      else Outcome(d, Success)
    case WriteEditValue(i, v, stored) =>
      if i >= |d.editable| || !d.editable[i] then Outcome(d, Unsupported)
      else if d.edit.None? then Outcome(d, Unavailable)
      else if !stored then Outcome(d, Refused)
      else if i < |d.edit.value.buffer| then
        Outcome(d.(edit := Some(d.edit.value.(buffer := d.edit.value.buffer[i := v]))), Success)
      else Outcome(d, Success)
    case WriteActiveValue(i, _) => Outcome(d, if i >= |d.editable| then Unsupported else Denied)
  }

  ghost function StoreOf(s: State, g: nat): (store: seq<Value>)
    requires Shaped(s) && g < s.num as int
  {
    seq(|s.settings|, i requires 0 <= i < |s.settings| => s.settings[i].groups[g])
  }

  ghost function Buffer(s: State, g: nat): (buffer: seq<Value>)
    requires Shaped(s) && g < s.num as int
  {
    seq(|s.settings|, i requires 0 <= i < |s.settings| =>
      if s.settings[i].se.Some? then s.settings[i].se.value else s.settings[i].groups[g])
  }

  ghost function Editable(s: State): seq<bool>
  {
    seq(|s.settings|, i requires 0 <= i < |s.settings| => s.settings[i].se.Some?)
  }

  ghost function Meaning(s: State): (d: Device)
    requires Shaped(s)
  {
    Device(
      seq(s.num, g requires 0 <= g < s.num as int => StoreOf(s, g)),
      s.act as int - 1,
      if Editing(s) then Some(Edit(s.edit as int - 1, Buffer(s, s.edit as int - 1))) else None,
      Editable(s))
  }

  ghost function View(s: State): seq<Value>
  {
    seq(|s.settings|, i requires 0 <= i < |s.settings| => s.settings[i].sg)
  }

  // The active view is the store of the active group.
  ghost predicate ViewIsStore(s: State)
  {
    Shaped(s) && 1 <= s.act <= s.num && View(s) == StoreOf(s, s.act as int - 1)
  }

  // The control block shows where the device stands.
  predicate BlockShows(s: State)
  {
    s.block == Block(s.act as int, s.edit as int, false)
  }

  // Every write does to the meaning what it should, and answers alike.
  lemma WriteRefines(s: State, r: Request)
    requires Shaped(s)
    ensures Shaped(Write(s, r).state)
    ensures Outcome(Meaning(Write(s, r).state), Write(s, r).code) == Serve(Meaning(s), r)
  {
    match r
    case WriteActSG(v, stored) => ActRefines(s, v, stored);
    case WriteEditSG(v, stored) => EditRefines(s, v, stored);
    case WriteCnfEdit(on, stored) => ConfirmRefines(s, on, stored);
    case WriteEditValue(i, v, stored) => ValueRefines(s, i, v, stored);
    case WriteActiveValue(i, v) =>
  }

  lemma SameStores(s: State, t: State)
    requires Shaped(s) && Shaped(t) && s.num == t.num && |s.settings| == |t.settings|
    requires forall i | 0 <= i < |s.settings| :: s.settings[i].groups == t.settings[i].groups
    requires forall i | 0 <= i < |s.settings| :: s.settings[i].se.Some? == t.settings[i].se.Some?
    ensures Meaning(s).stores == Meaning(t).stores && Editable(s) == Editable(t)
  {
    forall g | 0 <= g < s.num as int
      ensures StoreOf(s, g) == StoreOf(t, g)
    {}
  }

  lemma ActRefines(s: State, v: int, stored: bool)
    requires Shaped(s)
    ensures
      var r := WriteActSG(v, stored);
      var t := Write(s, r);
      Shaped(t.state) && Outcome(Meaning(t.state), t.code) == Serve(Meaning(s), r)
  {
    var t := Write(s, WriteActSG(v, stored)).state;
    SameStores(s, t);
    if Editing(s) {
      assert Buffer(s, s.edit as int - 1) == Buffer(t, s.edit as int - 1);
    }
  }

  lemma EditRefines(s: State, v: int, stored: bool)
    requires Shaped(s)
    ensures
      var r := WriteEditSG(v, stored);
      var t := Write(s, r);
      Shaped(t.state) && Outcome(Meaning(t.state), t.code) == Serve(Meaning(s), r)
  {
    var t := Write(s, WriteEditSG(v, stored)).state;
    SameStores(s, t);
    if 1 <= v <= s.num as int && stored {
      assert Buffer(t, v - 1) == StoreOf(s, v - 1);
    }
  }

  lemma ConfirmRefines(s: State, on: bool, stored: bool)
    requires Shaped(s)
    ensures
      var r := WriteCnfEdit(on, stored);
      var t := Write(s, r);
      Shaped(t.state) && Outcome(Meaning(t.state), t.code) == Serve(Meaning(s), r)
  {
    var t := Write(s, WriteCnfEdit(on, stored)).state;
    if on && stored && Editing(s) {
      var e := s.edit as int - 1;
      forall g | 0 <= g < s.num as int
        ensures StoreOf(t, g) == if g == e then Buffer(s, e) else StoreOf(s, g)
      {}
      assert Editable(s) == Editable(t);
      assert Meaning(t).stores == Meaning(s).stores[e := Buffer(s, e)];
    } else {
      SameStores(s, t);
      if Editing(s) {
        assert Buffer(s, s.edit as int - 1) == Buffer(t, s.edit as int - 1);
      }
    }
  }

  lemma ValueRefines(s: State, i: nat, v: Value, stored: bool)
    requires Shaped(s)
    ensures
      var r := WriteEditValue(i, v, stored);
      var t := Write(s, r);
      Shaped(t.state) && Outcome(Meaning(t.state), t.code) == Serve(Meaning(s), r)
  {
    var t := Write(s, WriteEditValue(i, v, stored)).state;
    SameStores(s, t);
    if CheckWrite(s, WriteEditValue(i, v, stored)) == Success && stored {
      var e := s.edit as int - 1;
      assert Buffer(t, e) == Buffer(s, e)[i := v];
    }
  }

  // What clients read

  // Every write keeps the active view in step with the store, and the control
  // block with the device; selecting the active group brings the view in step
  // whatever it was.
  lemma WriteKeepsView(s: State, r: Request)
    requires Shaped(s)
    ensures
      var t := Write(s, r);
      && Shaped(t.state)
      && (ViewIsStore(s) ==> ViewIsStore(t.state))
      && (BlockShows(s) ==> BlockShows(t.state))
      && (r.WriteActSG? && t.code == Success ==> ViewIsStore(t.state) && t.state.block.actSG == t.state.act as int)
  {
    WriteRefines(s, r);
    if ViewIsStore(s) {
      match r
      case WriteCnfEdit(on, stored) => ConfirmKeepsView(s, on, stored);
      case WriteEditSG(_, _) => ViewUntouched(s, Write(s, r).state);
      case WriteEditValue(_, _, _) => ViewUntouched(s, Write(s, r).state);
      case _ =>
    }
    if r.WriteActSG? && Write(s, r).code == Success {
      var t := Write(s, r).state;
      assert View(t) == StoreOf(t, t.act as int - 1);
    }
  }

  lemma ViewUntouched(s: State, t: State)
    requires ViewIsStore(s) && Shaped(t) && t.num == s.num && t.act == s.act && |t.settings| == |s.settings|
    requires forall i | 0 <= i < |s.settings| ::
               t.settings[i].sg == s.settings[i].sg && t.settings[i].groups == s.settings[i].groups
    ensures ViewIsStore(t)
  {
    assert View(t) == View(s) && StoreOf(t, s.act as int - 1) == StoreOf(s, s.act as int - 1);
  }

  lemma ConfirmKeepsView(s: State, on: bool, stored: bool)
    requires ViewIsStore(s)
    ensures ViewIsStore(Write(s, WriteCnfEdit(on, stored)).state)
  {
    var t := Write(s, WriteCnfEdit(on, stored)).state;
    WriteRefines(s, WriteCnfEdit(on, stored));
    var a := s.act as int - 1;
    forall i | 0 <= i < |s.settings|
      ensures t.settings[i].sg == t.settings[i].groups[a]
    {
      assert s.settings[i].sg == View(s)[i] == StoreOf(s, a)[i];
    }
    assert View(t) == StoreOf(t, a);
  }

  // Runs

  function Run(s: State, rs: seq<Request>): State
    requires Shaped(s)
    ensures Shaped(Run(s, rs))
  {
    if rs == [] then s
    else
      var t := Run(s, rs[..|rs| - 1]);
      WriteRefines(t, rs[|rs| - 1]);
      Write(t, rs[|rs| - 1]).state
  }

  function Meant(d: Device, rs: seq<Request>): Device
  {
    if rs == [] then d else Serve(Meant(d, rs[..|rs| - 1]), rs[|rs| - 1]).device
  }

  lemma {:induction false} RunRefines(s: State, rs: seq<Request>)
    requires Shaped(s)
    ensures Meaning(Run(s, rs)) == Meant(Meaning(s), rs)
    decreases |rs|
  {
    hide Meaning, Write, Serve;
    if rs != [] {
      RunRefines(s, rs[..|rs| - 1]);
      WriteRefines(Run(s, rs[..|rs| - 1]), rs[|rs| - 1]);
    }
  }

  ghost predicate Switches(s: State, rs: seq<Request>)
    requires Shaped(s)
  {
    rs != [] && (
      || Switches(s, rs[..|rs| - 1])
      || (rs[|rs| - 1].WriteActSG? && Write(Run(s, rs[..|rs| - 1]), rs[|rs| - 1]).code == Success))
  }

  // Once the view and the store agree, and from the first accepted selection of
  // the active group on in any case, what a client reads of the active
  // settings is the store of the active group, and the meaning of the run
  // says what that is.
  lemma {:induction false} ReadsAreMeant(s: State, rs: seq<Request>)
    requires Shaped(s) && (ViewIsStore(s) || Switches(s, rs))
    ensures
      var t := Run(s, rs);
      var d := Meant(Meaning(s), rs);
      ViewIsStore(t) && 0 <= d.active < |d.stores| && View(t) == d.stores[d.active]
    decreases |rs|
  {
    hide Write, ViewIsStore, View, Meaning, Serve;
    RunRefines(s, rs);
    if rs != [] {
      var before := rs[..|rs| - 1];
      WriteKeepsView(Run(s, before), rs[|rs| - 1]);
      if ViewIsStore(s) || Switches(s, before) {
        ReadsAreMeant(s, before);
      }
    }
    ViewOfMeaning(Run(s, rs));
  }

  lemma ViewOfMeaning(s: State)
    requires ViewIsStore(s)
    ensures
      var d := Meaning(s);
      0 <= d.active < |d.stores| && View(s) == d.stores[d.active]
  {
    hide View, StoreOf, Buffer, Editable;
  }

  // Only a confirmation changes a store, and only that of the group edited.
  lemma OnlyConfirmStores(s: State, r: Request)
    requires Shaped(s)
    ensures Shaped(Write(s, r).state)
    ensures
      var t := Write(s, r);
      Meaning(t.state).stores ==
      if r.WriteCnfEdit? && r.on && t.code == Success then
        Meaning(s).stores[s.edit as int - 1 := Buffer(s, s.edit as int - 1)]
      else Meaning(s).stores
  {
    hide Write;
    WriteRefines(s, r);
  }

  ghost predicate Confirms(rs: seq<Request>)
  {
    exists r :: r in rs && r.WriteCnfEdit? && r.on
  }

  // Edits that are not confirmed are never seen: no store changes, so no
  // selection of any group can bring them into the active view.
  lemma {:induction false} UnconfirmedIsUnseen(s: State, rs: seq<Request>)
    requires Shaped(s) && !Confirms(rs)
    ensures Meaning(Run(s, rs)).stores == Meaning(s).stores
    decreases |rs|
  {
    hide Meaning, Write;
    if rs != [] {
      var before := rs[..|rs| - 1];
      assert rs[|rs| - 1] in rs;
      UnconfirmedIsUnseen(s, before);
      OnlyConfirmStores(Run(s, before), rs[|rs| - 1]);
    }
  }

  // What a confirmation stores, from the requests alone: for each setting the
  // last value accepted for it since the group was opened.
  function LastWritten(rs: seq<Request>, i: nat, original: Value): Value
  {
    if rs == [] then original
    else
      var r := rs[|rs| - 1];
      if r.WriteEditValue? && r.i == i && r.stored then r.v
      else LastWritten(rs[..|rs| - 1], i, original)
  }

  ghost predicate OneEdit(rs: seq<Request>)
  {
    forall r | r in rs :: !r.WriteEditSG? && (r.WriteCnfEdit? ==> !r.on)
  }

  lemma {:induction false} EditCollects(d: Device, rs: seq<Request>, i: nat)
    requires d.edit.Some? && |d.edit.value.buffer| == |d.editable| && OneEdit(rs)
    requires i < |d.editable| && d.editable[i]
    ensures
      var e := Meant(d, rs);
      && e.edit.Some? && e.edit.value.group == d.edit.value.group && |e.edit.value.buffer| == |d.editable|
      && e.stores == d.stores && e.editable == d.editable
      && e.edit.value.buffer[i] == LastWritten(rs, i, d.edit.value.buffer[i])
    decreases |rs|
  {
    if rs != [] {
      var before := rs[..|rs| - 1];
      assert rs[|rs| - 1] in rs;
      EditCollects(d, before, i);
    }
  }

  // Opening a group, editing it, and confirming.
  lemma ConfirmStoresTheEdits(s: State, g: int, rs: seq<Request>, i: nat)
    requires Shaped(s) && 1 <= g <= s.num as int && OneEdit(rs)
    requires i < |s.settings| && s.settings[i].se.Some?
    ensures
      var t := Run(s, [WriteEditSG(g, true)] + rs + [WriteCnfEdit(true, true)]);
      && |t.settings| == |s.settings|
      && |t.settings[i].groups| == s.num as int
      && t.settings[i].groups[g - 1] == LastWritten(rs, i, s.settings[i].groups[g - 1])
  {
    var d := Meaning(s);
    var opening, closing := WriteEditSG(g, true), WriteCnfEdit(true, true);
    var all := [opening] + rs + [closing];
    RunRefines(s, all);
    assert all[..|all| - 1] == [opening] + rs;
    MeantConcat(d, [opening], rs);
    assert Meant(d, [opening]) == Serve(Meant(d, []), opening).device by { assert [opening][..0] == []; }
    var open := Serve(d, opening).device;
    EditCollects(open, rs, i);
    ReadStore(Run(s, all), g - 1, i);
    assert d.stores[g - 1] == StoreOf(s, g - 1);
  }

  // The store of a group, read back setting by setting.
  lemma ReadStore(s: State, g: nat, i: nat)
    requires Shaped(s) && g < |Meaning(s).stores|
    ensures |Meaning(s).stores[g]| == |s.settings| == |Meaning(s).editable|
    ensures i < |s.settings| ==> g < |s.settings[i].groups| && Meaning(s).stores[g][i] == s.settings[i].groups[g]
  {}

  lemma {:induction false} MeantConcat(d: Device, a: seq<Request>, b: seq<Request>)
    ensures Meant(d, a + b) == Meant(Meant(d, a), b)
    decreases |b|
  {
    hide Serve;
    if b == [] {
      assert a + b == a;
    } else {
      assert (a + b)[..|a + b| - 1] == a + b[..|b| - 1];
      MeantConcat(d, a, b[..|b| - 1]);
    }
  }

  // The beginning

  // An initial value a document gives one setting in one group.
  datatype Seed = Seed(number: int, i: nat, v: Value)

  // A setting's attributes as loaded; seFirst says that the SE attribute comes
  // before the SG attribute of the same name in their object.
  datatype Attr = Attr(sg: Value, se: Option<Value>, seFirst: bool)

  function FromAttrs(attrs: seq<Attr>, num: nat): (settings: seq<Setting>)
    ensures |settings| == |attrs|
    ensures forall i | 0 <= i < |attrs| ::
              settings[i].sg == attrs[i].sg && settings[i].se == attrs[i].se
              && |settings[i].groups| == num && forall g | 0 <= g < num :: settings[i].groups[g] == attrs[i].sg
  {
    seq(|attrs|, i requires 0 <= i < |attrs| => Setting(attrs[i].sg, attrs[i].se, seq(num, _ => attrs[i].sg)))
  }

  // Numbers that are no group, and settings there are none of, are passed by.
  function SeededOne(settings: seq<Setting>, seed: Seed): (out: seq<Setting>)
    ensures |out| == |settings|
    ensures forall i | 0 <= i < |settings| ::
              out[i].sg == settings[i].sg && |out[i].groups| == |settings[i].groups|
  {
    if seed.i < |settings| && 1 <= seed.number <= |settings[seed.i].groups| then
      var s := settings[seed.i];
      settings[seed.i := s.(groups := s.groups[seed.number - 1 := seed.v])]
    else settings
  }

  function Seeded(settings: seq<Setting>, seeds: seq<Seed>): (out: seq<Setting>)
    ensures |out| == |settings|
    ensures forall i | 0 <= i < |settings| ::
              out[i].sg == settings[i].sg && |out[i].groups| == |settings[i].groups|
  {
    if seeds == [] then settings
    else SeededOne(Seeded(settings, seeds[..|seeds| - 1]), seeds[|seeds| - 1])
  }

  // What the server makes of a model: the group declared active is noted, the
  // control block shows the first, and the view is the model's.
  function Built(num: byte, attrs: seq<Attr>, seeds: seq<Seed>, actSG: int): (s: State)
    ensures Shaped(s)
  {
    var n: byte := if num == 0 then 1 else num;
    var act: byte := if actSG > 0 then actSG % 0x100 else 1;
    State(n, act, 0, Seeded(FromAttrs(attrs, n as int), seeds), Block(1, 0, false))
  }

  function LastSeed(seeds: seq<Seed>, number: int, i: nat, original: Value): Value
  {
    if seeds == [] then original
    else
      var seed := seeds[|seeds| - 1];
      if seed.i == i && seed.number == number then seed.v
      else LastSeed(seeds[..|seeds| - 1], number, i, original)
  }

  lemma {:induction false} SeededIsLast(settings: seq<Setting>, seeds: seq<Seed>, i: nat, g: nat)
    requires i < |settings| && g < |settings[i].groups|
    ensures Seeded(settings, seeds)[i].groups[g] == LastSeed(seeds, g + 1, i, settings[i].groups[g])
    decreases |seeds|
  {
    if seeds != [] {
      SeededIsLast(settings, seeds[..|seeds| - 1], i, g);
    }
  }

  // Of the model the server is given: a device starts with its view in step
  // exactly when its active group exists and is seeded, where it is, with the
  // values the attributes have; and with its control block right exactly when
  // that group is the first.
  lemma StartsInStep(num: byte, attrs: seq<Attr>, seeds: seq<Seed>, actSG: int)
    ensures
      var s := Built(num, attrs, seeds, actSG);
      && s.num == (if num == 0 then 1 else num)
      && (BlockShows(s) <==> s.act == 1)
      && (ViewIsStore(s) <==>
            && 1 <= s.act <= s.num
            && forall i | 0 <= i < |attrs| :: LastSeed(seeds, s.act as int, i, attrs[i].sg) == attrs[i].sg)
  {
    var s := Built(num, attrs, seeds, actSG);
    var settings := FromAttrs(attrs, s.num as int);
    if 1 <= s.act <= s.num {
      var a := s.act as int - 1;
      forall i | 0 <= i < |attrs|
        ensures StoreOf(s, a)[i] == LastSeed(seeds, s.act as int, i, attrs[i].sg) && View(s)[i] == attrs[i].sg
      {
        SeededIsLast(settings, seeds, i, a);
      }
      assert |View(s)| == |StoreOf(s, a)| == |attrs|;
    }
  }

  // Loading a document

  // The first attribute of a setting's name is the SE one.
  predicate SeTakes(a: Attr) { a.seFirst && a.se.Some? }

  function Stored(a: Attr, v: Value): Attr
  {
    if SeTakes(a) then a.(se := Some(v)) else a.(sg := v)
  }

  // The values of the group declared active written onto the attributes; none
  // is declared by 0, and then nothing is.
  function Applied(attrs: seq<Attr>, seeds: seq<Seed>, actSG: int): (out: seq<Attr>)
    ensures |out| == |attrs|
    ensures forall i | 0 <= i < |attrs| :: out[i] == AppliedOne(attrs[i], seeds, actSG, i)
  {
    seq(|attrs|, i requires 0 <= i < |attrs| => AppliedOne(attrs[i], seeds, actSG, i))
  }

  function AppliedOne(a: Attr, seeds: seq<Seed>, actSG: int, i: nat): Attr
  {
    if actSG <= 0 then a
    else if SeTakes(a) then a.(se := Some(LastSeed(seeds, actSG, i, a.se.value)))
    else a.(sg := LastSeed(seeds, actSG, i, a.sg))
  }

  method ApplyActiveGroup(attrs: seq<Attr>, seeds: seq<Seed>, actSG: int) returns (out: seq<Attr>)
    ensures out == Applied(attrs, seeds, actSG)
  {
    hide LastSeed;
    out := attrs;
    if actSG <= 0 {
      return;
    }
    NoSeeds(attrs, actSG);
    for k := 0 to |seeds|
      invariant out == Applied(attrs, seeds[..k], actSG)
    {
      var seed := seeds[k];
      AppliedMore(attrs, seeds, actSG, k);
      if seed.number == actSG && seed.i < |out| {
        out := out[seed.i := Stored(out[seed.i], seed.v)];
      }
    }
    assert seeds[..|seeds|] == seeds;
  }

  lemma NoSeeds(attrs: seq<Attr>, actSG: int)
    ensures Applied(attrs, [], actSG) == attrs
  {}

  lemma AppliedMore(attrs: seq<Attr>, seeds: seq<Seed>, actSG: int, k: nat)
    requires actSG > 0 && k < |seeds|
    ensures
      var now := Applied(attrs, seeds[..k], actSG);
      Applied(attrs, seeds[..k + 1], actSG) ==
      if seeds[k].number == actSG && seeds[k].i < |attrs| then
        now[seeds[k].i := Stored(now[seeds[k].i], seeds[k].v)]
      else now
  {
    assert seeds[..k + 1][..k] == seeds[..k];
  }

  // The group numbers a document can record values for.
  ghost predicate Recorded(seeds: seq<Seed>)
  {
    forall k | 0 <= k < |seeds| :: 1 <= seeds[k].number <= 255
  }

  lemma {:induction false} SeedTwice(seeds: seq<Seed>, number: int, i: nat, v: Value)
    ensures LastSeed(seeds, number, i, LastSeed(seeds, number, i, v)) == LastSeed(seeds, number, i, v)
    decreases |seeds|
  {
    if seeds != [] {
      var before := seeds[..|seeds| - 1];
      SeedTwice(before, number, i, v);
      if LastSeed(seeds, number, i, v) != LastSeed(before, number, i, v) {
        assert seeds[|seeds| - 1].number == number && seeds[|seeds| - 1].i == i;
      }
    }
  }

  lemma {:induction false} NoSuchGroup(seeds: seq<Seed>, number: int, i: nat, v: Value)
    requires Recorded(seeds) && number > 255
    ensures LastSeed(seeds, number, i, v) == v
    decreases |seeds|
  {
    if seeds != [] {
      NoSuchGroup(seeds[..|seeds| - 1], number, i, v);
    }
  }

  // A document loaded and served: the device starts with its view in step
  // exactly when its active group exists and every setting was given that
  // group's value, because the document declares the group and the SG attribute
  // takes it, or needs none, because no other value is recorded for it.
  lemma DocumentStartsInStep(num: byte, attrs: seq<Attr>, seeds: seq<Seed>, actSG: int)
    requires Recorded(seeds)
    ensures
      var s := Built(num, Applied(attrs, seeds, actSG), seeds, actSG);
      && (BlockShows(s) <==> s.act == 1)
      && (ViewIsStore(s) <==>
            && 1 <= s.act <= s.num
            && forall i | 0 <= i < |attrs| ::
                 || (actSG == s.act as int && !SeTakes(attrs[i]))
                 || LastSeed(seeds, s.act as int, i, attrs[i].sg) == attrs[i].sg)
  {
    var loaded := Applied(attrs, seeds, actSG);
    var s := Built(num, loaded, seeds, actSG);
    StartsInStep(num, loaded, seeds, actSG);
    DeclaredIsActive(num, loaded, seeds, actSG);
    hide Built, ViewIsStore, LastSeed;
    var act := s.act as int;
    forall i | 0 <= i < |attrs|
      ensures
        LastSeed(seeds, act, i, loaded[i].sg) == loaded[i].sg <==>
        (actSG == act && !SeTakes(attrs[i])) || LastSeed(seeds, act, i, attrs[i].sg) == attrs[i].sg
    {
      if actSG > 0 && !SeTakes(attrs[i]) {
        assert loaded[i].sg == LastSeed(seeds, actSG, i, attrs[i].sg);
        if actSG > 255 {
          NoSuchGroup(seeds, actSG, i, attrs[i].sg);
        } else {
          SeedTwice(seeds, act, i, attrs[i].sg);
        }
      } else {
        assert loaded[i].sg == attrs[i].sg;
      }
    }
  }

  lemma DeclaredIsActive(num: byte, attrs: seq<Attr>, seeds: seq<Seed>, actSG: int)
    ensures 0 < actSG <= 255 ==> Built(num, attrs, seeds, actSG).act as int == actSG
    ensures actSG <= 0 ==> Built(num, attrs, seeds, actSG).act == 1
  {}

  // So a declared group that exists always starts in step where each SG
  // attribute comes first, and reads as the first in the control block.
  lemma DeclaredStartsInStep(num: byte, attrs: seq<Attr>, seeds: seq<Seed>, actSG: int)
    requires Recorded(seeds) && 1 <= actSG <= num as int
    requires forall i | 0 <= i < |attrs| :: !SeTakes(attrs[i])
    ensures
      var s := Built(num, Applied(attrs, seeds, actSG), seeds, actSG);
      ViewIsStore(s) && s.act as int == actSG && s.block.actSG == 1
  {
    hide ViewIsStore, Applied, SeTakes, LastSeed;
    DocumentStartsInStep(num, attrs, seeds, actSG);
  }

  // A document that declares no active group and records a value for the
  // first starts out of step.
  lemma UndeclaredStartsOutOfStep(x: Value, y: Value)
    requires x != y
    ensures
      var attrs, seeds := [Attr(x, None, false)], [Seed(1, 0, y)];
      var s := Built(2, Applied(attrs, seeds, 0), seeds, 0);
      s.act == 1 && !ViewIsStore(s) && View(s) == [x] && StoreOf(s, 0) == [y]
  {
    var attrs, seeds := [Attr(x, None, false)], [Seed(1, 0, y)];
    var s := Built(2, Applied(attrs, seeds, 0), seeds, 0);
    assert LastSeed(seeds, 1, 0, x) == y;
    DocumentStartsInStep(2, attrs, seeds, 0);
    SeededIsLast(FromAttrs(attrs, 2), seeds, 0, 0);
    assert Applied(attrs, seeds, 0) == attrs && View(s) == [x];
  }

  // So does one that declares its active group, where the SE attribute comes
  // first: that takes the group's value.
  lemma EditViewTakesTheValue(x: Value, y: Value)
    requires x != y
    ensures
      var attrs, seeds := [Attr(x, Some(x), true)], [Seed(1, 0, y)];
      var s := Built(2, Applied(attrs, seeds, 1), seeds, 1);
      s.act == 1 && !ViewIsStore(s) && View(s) == [x] && s.settings[0].se == Some(y)
  {
    var attrs, seeds := [Attr(x, Some(x), true)], [Seed(1, 0, y)];
    var s := Built(2, Applied(attrs, seeds, 1), seeds, 1);
    assert LastSeed(seeds, 1, 0, x) == y;
    DocumentStartsInStep(2, attrs, seeds, 1);
    assert Applied(attrs, seeds, 1) == [Attr(x, Some(y), true)];
    assert seeds[..0] == [] && Seeded(FromAttrs(Applied(attrs, seeds, 1), 2), [])[0].se == Some(y);
    assert View(s) == [x];
  }

  // The manager

  class Manager {
    const num: byte
    var act: byte
    var edit: byte
    var settings: seq<Setting>
    var block: Block

    ghost function Abstract(): State
      reads this
    {
      State(num, act, edit, settings, block)
    }

    constructor (num0: byte, attrs: seq<Attr>, seeds: seq<Seed>, actSG: int)
      ensures Abstract() == Built(num0, attrs, seeds, actSG)
    {
      var n: byte := if num0 == 0 then 1 else num0;
      num, act, edit, block := n, 1, 0, Block(1, 0, false);
      settings := FromAttrs(attrs, n as int);
      new;
      SeedGroups(seeds);
      if actSG > 0 {
        act := actSG % 0x100;
      }
    }

    method SeedGroups(seeds: seq<Seed>)
      requires Shaped(Abstract())
      modifies this
      ensures Abstract() == old(Abstract()).(settings := Seeded(old(settings), seeds))
    {
      for k := 0 to |seeds|
        invariant Shaped(Abstract())
        invariant Abstract() == old(Abstract()).(settings := Seeded(old(settings), seeds[..k]))
      {
        var seed := seeds[k];
        assert seeds[..k + 1][..k] == seeds[..k];
        if seed.number <= 0 || seed.number > num as int {
          assert Seeded(old(settings), seeds[..k + 1]) == settings;
          continue;
        }
        if seed.i < |settings| {
          var s := settings[seed.i];
          settings := settings[seed.i := s.(groups := s.groups[seed.number - 1 := seed.v])];
        }
      }
      assert seeds[..|seeds|] == seeds;
    }

    method SelectActive(g: int)
      requires Shaped(Abstract())
      modifies this
      ensures Abstract() == Apply(old(Abstract()), WriteActSG(g, true))
    {
      block := block.(actSG := g);
      var n: byte := g % 0x100;
      if 1 <= n <= num {
        act := n;
        block := block.(actSG := n as int);
        for i := 0 to |settings|
          invariant |settings| == |old(settings)| && act == n && edit == old(edit)
          invariant block == old(block).(actSG := n as int)
          invariant forall j | 0 <= j < i :: settings[j] == Switched(old(settings), n as int - 1)[j]
          invariant forall j | i <= j < |settings| :: settings[j] == old(settings)[j]
        {
          settings := settings[i := settings[i].(sg := settings[i].groups[n as int - 1])];
        }
        assert settings == Switched(old(settings), n as int - 1);
      }
    }

    method SelectEdit(g: int)
      requires Shaped(Abstract())
      modifies this
      ensures Abstract() == Apply(old(Abstract()), WriteEditSG(g, true))
    {
      var n: byte := g % 0x100;
      edit, block := n, block.(editSG := n as int);
      if 1 <= n <= num {
        for i := 0 to |settings|
          invariant |settings| == |old(settings)| && act == old(act) && edit == n
          invariant block == old(block).(editSG := n as int)
          invariant forall j | 0 <= j < i :: settings[j] == Opened(old(settings), n as int - 1)[j]
          invariant forall j | i <= j < |settings| :: settings[j] == old(settings)[j]
        {
          if settings[i].se.Some? {
            settings := settings[i := settings[i].(se := Some(settings[i].groups[n as int - 1]))];
          }
        }
        assert settings == Opened(old(settings), n as int - 1);
      }
    }

    method Confirm(on: bool)
      requires Shaped(Abstract())
      modifies this
      ensures Abstract() == Apply(old(Abstract()), WriteCnfEdit(on, true))
    {
      block := block.(cnfEdit := on);
      if on && 1 <= edit <= num {
        var g, active := edit as int - 1, edit == act;
        for i := 0 to |settings|
          invariant |settings| == |old(settings)| && act == old(act) && edit == old(edit)
          invariant block == old(block).(cnfEdit := on)
          invariant forall j | 0 <= j < i :: settings[j] == Confirmed(old(settings), g, active)[j]
          invariant forall j | i <= j < |settings| :: settings[j] == old(settings)[j]
        {
          var s := settings[i];
          if s.se.Some? {
            s := s.(groups := s.groups[g := s.se.value]);
            if active {
              s := s.(sg := s.se.value);
            }
            settings := settings[i := s];
          }
        }
        assert settings == Confirmed(old(settings), g, active);
        edit, block := 0, block.(editSG := 0, cnfEdit := false);
      }
    }

    method HandleWrite(r: Request) returns (code: Code)
      requires Shaped(Abstract())
      modifies this
      ensures Reply(Abstract(), code) == Write(old(Abstract()), r)
    {
      hide Apply;
      code := CheckWrite(State(num, act, edit, settings, block), r);
      if code != Success {
        return;
      }
      if !r.WriteActiveValue? && !r.stored {
        return Refused;
      }
      match r
      case WriteActSG(g, _) => SelectActive(g);
      case WriteEditSG(g, _) => SelectEdit(g);
      case WriteCnfEdit(on, _) => Confirm(on);
      case WriteEditValue(i, v, _) => StoreEdit(i, v);
      case WriteActiveValue(_, _) => assert false;
    }

    method StoreEdit(i: nat, v: Value)
      requires Shaped(Abstract()) && i < |settings|
      modifies this
      ensures Abstract() == Apply(old(Abstract()), WriteEditValue(i, v, true))
    {
      settings := settings[i := settings[i].(se := Some(v))];
    }
  }
}
