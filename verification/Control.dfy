// Select-before-operate control (server/select.go, server/control.go).
//
// A request arrives parsed: the object it names, the phase, and the fields of
// the control structure the checks look at. The model lock and the selection
// lock make each request one step; the clock is read once for it.

module Control {
  import opened Options
  import opened Octets

  type Ref = string
  type Conn = nat

  datatype CtlModel = StatusOnly | DirectNormal | SBONormal | DirectEnhanced | SBOEnhanced

  predicate HasSelect(c: CtlModel) { c.SBONormal? || c.SBOEnhanced? }
  predicate Enhanced(c: CtlModel) { c.DirectEnhanced? || c.SBOEnhanced? }

  datatype Phase = Oper | SBOw | Cancel | SBO

  // A controllable object: its declared control model, if any, the control
  // structures it has, and how long a selection of it is held.
  datatype Object = Object(ctlModel: Option<CtlModel>, phases: set<Phase>, sboTimeout: nat)

  type Objects = map<Ref, Object>

  datatype Cause =
    | CauseNone
    | NotSupported
    | TestNotAllowed
    | InconsistentParameters
    | ObjectNotSelected
    | ObjectAlreadySelected
    | HandlerCause(code: byte)

  datatype Selection = Selection(conn: Conn, expiry: int, ctlNum: byte, hasCtlNum: bool)

  type Selections = map<Ref, Selection>

  const MAX_OR_IDENT_LEN := 64

  // A write to a control structure. device says that there is such a device;
  // whole that the item names the whole structure and the value is one; typeOk that ctlVal has the model's type;
  // handler is what the object's handler answers if asked.
  datatype Request = Request(
    conn: Conn,
    ref: Ref,
    phase: Phase,
    device: bool,
    whole: bool,
    typeOk: bool,
    ctlNum: byte,
    test: bool,
    orIdentLen: nat,
    handler: Cause)

  datatype Answer = Success | NonExistent | TypeInconsistent | Refused(cause: Cause)

  predicate Live(sel: Selections, ref: Ref, now: int)
  {
    ref in sel && now < sel[ref].expiry
  }

  function Reserve(
    objs: Objects, sel: Selections, ref: Ref, conn: Conn, ctlNum: byte, hasCtlNum: bool, now: int)
    : (r: Option<Selections>)
  {
    if ref in sel && sel[ref].conn != conn && now < sel[ref].expiry then None
    else Some(sel[ref := Selection(conn, now + Timeout(objs, ref), ctlNum, hasCtlNum)])
  }

  const DEFAULT_SELECT_TIMEOUT := 30_000

  function Timeout(objs: Objects, ref: Ref): nat
  {
    if ref in objs && objs[ref].sboTimeout > 0 then objs[ref].sboTimeout else DEFAULT_SELECT_TIMEOUT
  }

  function CheckSelection(sel: Selections, ref: Ref, conn: Conn, ctlNum: byte, now: int): Cause
  {
    if ref !in sel || sel[ref].conn != conn || now >= sel[ref].expiry then ObjectNotSelected
    else if sel[ref].hasCtlNum && sel[ref].ctlNum != ctlNum then InconsistentParameters
    else CauseNone
  }

  function CheckCancel(sel: Selections, ref: Ref, conn: Conn, ctlNum: byte, now: int): Cause
  {
    if ref !in sel || now >= sel[ref].expiry then CauseNone
    else if sel[ref].conn != conn then ObjectNotSelected
    else if sel[ref].hasCtlNum && sel[ref].ctlNum != ctlNum then InconsistentParameters
    else CauseNone
  }

  function Clear(sel: Selections, ref: Ref): Selections { sel - {ref} }

  function DeclaredModel(objs: Objects, ref: Ref): Option<CtlModel>
  {
    if ref in objs then objs[ref].ctlModel else None
  }

  // Why a request is refused before the selection is looked at.
  function Screen(objs: Objects, q: Request): (a: Answer)
  {
    if !q.device then NonExistent
    else if !q.whole then TypeInconsistent
    else if q.ref !in objs || q.phase !in objs[q.ref].phases then NonExistent
    else if q.phase != Cancel && !q.typeOk then TypeInconsistent
    else
      match objs[q.ref].ctlModel
      case None => if q.orIdentLen > MAX_OR_IDENT_LEN then Refused(InconsistentParameters) else Success
      case Some(cm) =>
        if cm.StatusOnly? then Refused(NotSupported)
        else if q.phase == SBOw && !cm.SBOEnhanced? then Refused(NotSupported)
        else if q.test && Enhanced(cm) then Refused(TestNotAllowed)
        else if q.orIdentLen > MAX_OR_IDENT_LEN then Refused(InconsistentParameters)
        else Success
  }

  // What a request does: the answer, the selections after it, and whether the
  // operate was carried out.
  datatype Effect = Effect(answer: Answer, selections: Selections, executed: bool)

  function ControlWrite(objs: Objects, sel: Selections, q: Request, now: int): (e: Effect)
  {
    var screened := Screen(objs, q);
    if !screened.Success? then Effect(screened, sel, false)
    else if q.phase == Cancel then
      var cause := CheckCancel(sel, q.ref, q.conn, q.ctlNum, now);
      if cause != CauseNone then Effect(Refused(cause), sel, false) else Effect(Success, Clear(sel, q.ref), false)
    else
      var cause :=
        if q.phase == Oper && RequiresSelection(objs, q.ref) then CheckSelection(sel, q.ref, q.conn, q.ctlNum, now)
        else CauseNone;
      if cause != CauseNone then Effect(Refused(cause), sel, false)
      else if q.handler != CauseNone then Effect(Refused(q.handler), sel, false)
      else if q.phase == SBOw then
        match Reserve(objs, sel, q.ref, q.conn, q.ctlNum, true, now)
        case None => Effect(Refused(ObjectAlreadySelected), sel, false)
        case Some(s) => Effect(Success, s, false)
      else Effect(Success, Clear(sel, q.ref), true)
  }

  predicate RequiresSelection(objs: Objects, ref: Ref)
  {
    DeclaredModel(objs, ref).Some? && HasSelect(DeclaredModel(objs, ref).value)
  }

  // A select by reading SBO: the selections after it, none when it fails.
  function ReadSBO(objs: Objects, sel: Selections, ref: Ref, conn: Conn, now: int): (r: Option<Selections>)
  {
    if DeclaredModel(objs, ref).Some? && !DeclaredModel(objs, ref).value.SBONormal? then None
    else Reserve(objs, sel, ref, conn, 0, false, now)
  }

  function Release(sel: Selections, conn: Conn): Selections
  {
    map r | r in sel && sel[r].conn != conn :: sel[r]
  }

  // What is carried out, accepted and refused, said of the request and the object

  // The request names a control structure that is there, and writes it whole.
  predicate Present(objs: Objects, q: Request)
  {
    q.device && q.whole && q.ref in objs && q.phase in objs[q.ref].phases
  }

  // Its value is of the type the model gives ctlVal, which a cancel is not asked.
  predicate Typed(objs: Objects, q: Request)
  {
    Present(objs, q) && (q.phase == Cancel || q.typeOk)
  }

  // The control model offers the service: none does for an object that only has
  // a status, and only enhanced select-before-operate has select-with-value.
  predicate Offered(objs: Objects, q: Request)
    requires q.ref in objs
  {
    var cm := objs[q.ref].ctlModel;
    cm != Some(StatusOnly) && (q.phase == SBOw ==> cm == None || cm == Some(SBOEnhanced))
  }

  predicate TestedEnhanced(objs: Objects, q: Request)
    requires q.ref in objs
  {
    var cm := objs[q.ref].ctlModel;
    q.test && (cm == Some(DirectEnhanced) || cm == Some(SBOEnhanced))
  }

  predicate Permitted(objs: Objects, q: Request)
  {
    Typed(objs, q) && Offered(objs, q) && !TestedEnhanced(objs, q) && q.orIdentLen <= 64
  }

  // The association that asks holds the object, its reservation not expired.
  predicate Holds(sel: Selections, q: Request, now: int)
  {
    q.ref in sel && sel[q.ref].conn == q.conn && now < sel[q.ref].expiry
  }

  predicate HeldByOther(sel: Selections, q: Request, now: int)
  {
    q.ref in sel && sel[q.ref].conn != q.conn && now < sel[q.ref].expiry
  }

  // The control number is not the one the reservation was made with.
  predicate Renumbered(sel: Selections, q: Request)
    requires q.ref in sel
  {
    sel[q.ref].hasCtlNum && sel[q.ref].ctlNum != q.ctlNum
  }

  // A write to $Oper of an object to be selected first.
  predicate Selective(objs: Objects, q: Request)
    requires q.ref in objs
  {
    var cm := objs[q.ref].ctlModel;
    q.phase == Oper && (cm == Some(SBONormal) || cm == Some(SBOEnhanced))
  }

  predicate SelectionServes(objs: Objects, sel: Selections, q: Request, now: int)
    requires q.ref in objs
  {
    Selective(objs, q) ==> Holds(sel, q, now) && !Renumbered(sel, q)
  }

  // An operate is carried out exactly when nothing speaks against it and the
  // handler agrees; it uses up the reservation.
  lemma CarriedOutExactly(objs: Objects, sel: Selections, q: Request, now: int)
    ensures
      var e := ControlWrite(objs, sel, q, now);
      && (e.executed <==>
        && Permitted(objs, q)
        && (q.phase == Oper || q.phase == SBO)
        && SelectionServes(objs, sel, q, now)
        && q.handler == CauseNone)
      && (e.executed ==> e.answer == Success && e.selections == map r | r in sel && r != q.ref :: sel[r])
  {
    if Permitted(objs, q) {
      assert Screen(objs, q) == Success;
    }
  }

  // A select-with-value is accepted exactly when nothing speaks against it, the
  // handler agrees and no other association holds the object; it reserves the
  // object under its control number.
  lemma SelectAcceptedExactly(objs: Objects, sel: Selections, q: Request, now: int)
    requires q.phase == SBOw
    ensures
      var e := ControlWrite(objs, sel, q, now);
      && !e.executed
      && (e.answer == Success <==>
        Permitted(objs, q) && q.handler == CauseNone && !HeldByOther(sel, q, now))
      && (e.answer == Success ==>
        var held := if objs[q.ref].sboTimeout > 0 then objs[q.ref].sboTimeout else 30_000;
        e.selections == sel[q.ref := Selection(q.conn, now + held, q.ctlNum, true)])
  {
    if Permitted(objs, q) {
      assert Screen(objs, q) == Success;
    }
  }

  // A cancel is accepted exactly when nothing speaks against it and the object is
  // either not held or held by the one who asks, under the same control number.
  lemma CancelAcceptedExactly(objs: Objects, sel: Selections, q: Request, now: int)
    requires q.phase == Cancel
    ensures
      var e := ControlWrite(objs, sel, q, now);
      && !e.executed
      && (e.answer == Success <==>
        && Permitted(objs, q)
        && !HeldByOther(sel, q, now)
        && (Holds(sel, q, now) ==> !Renumbered(sel, q)))
      && (e.answer == Success ==> e.selections == map r | r in sel && r != q.ref :: sel[r])
  {
    if Permitted(objs, q) {
      assert Screen(objs, q) == Success;
    }
  }

  // A select by reading $SBO is granted exactly when the object is declared for
  // it, or declares nothing, and no other association holds it.
  lemma ReadGrantedExactly(objs: Objects, sel: Selections, ref: Ref, conn: Conn, now: int)
    ensures
      var r := ReadSBO(objs, sel, ref, conn, now);
      && (r.Some? <==>
        && (ref in objs ==> objs[ref].ctlModel == None || objs[ref].ctlModel == Some(SBONormal))
        && !(ref in sel && sel[ref].conn != conn && now < sel[ref].expiry))
      && (r.Some? ==>
        var held := if ref in objs && objs[ref].sboTimeout > 0 then objs[ref].sboTimeout else 30_000;
        r.value == sel[ref := Selection(conn, now + held, 0, false)])
  {}

  // What every other request is answered. It changes nothing.
  lemma RefusedFor(objs: Objects, sel: Selections, q: Request, now: int)
    ensures
      var e := ControlWrite(objs, sel, q, now);
      && (e.answer != Success ==> e.selections == sel && !e.executed)
      && (e.answer == NonExistent <==> !q.device || (q.whole && !Present(objs, q)))
      && (e.answer == TypeInconsistent <==> q.device && (!q.whole || (Present(objs, q) && !Typed(objs, q))))
    ensures
      var a := ControlWrite(objs, sel, q, now).answer;
      Typed(objs, q) ==>
        if !Offered(objs, q) then a == Refused(NotSupported)
        else if TestedEnhanced(objs, q) then a == Refused(TestNotAllowed)
        else q.orIdentLen > 64 ==> a == Refused(InconsistentParameters)
    ensures
      var a := ControlWrite(objs, sel, q, now).answer;
      Permitted(objs, q) && q.phase != Cancel ==>
        if Selective(objs, q) && !Holds(sel, q, now) then a == Refused(ObjectNotSelected)
        else if Selective(objs, q) && Renumbered(sel, q) then a == Refused(InconsistentParameters)
        else if q.handler != CauseNone then a == Refused(q.handler)
        else if q.phase == SBOw && HeldByOther(sel, q, now) then a == Refused(ObjectAlreadySelected)
        else a == Success
    ensures
      var a := ControlWrite(objs, sel, q, now).answer;
      Permitted(objs, q) && q.phase == Cancel ==>
        if HeldByOther(sel, q, now) then a == Refused(ObjectNotSelected)
        else if Holds(sel, q, now) && Renumbered(sel, q) then a == Refused(InconsistentParameters)
        else a == Success
  {
    if Permitted(objs, q) {
      assert Screen(objs, q) == Success;
    }
  }

  // Runs

  datatype Action =
    | Read(conn: Conn, ref: Ref)
    | Write(req: Request)
    | CloseConn(conn: Conn)
    | Tick(ms: nat)

  // What happened, in order: the selections granted, the operates carried out
  // and the reservations given up.
  datatype Event =
    | Selected(ref: Ref, sel: Selection)
    | Executed(ref: Ref, conn: Conn, ctlNum: byte, phase: Phase, at: int)
    | Cancelled(ref: Ref, conn: Conn)
    | Released(conn: Conn)

  datatype World = World(now: int, selections: Selections, history: seq<Event>)

  function Step(objs: Objects, w: World, a: Action): (w': World)
  {
    match a
    case Tick(ms) => w.(now := w.now + ms)
    case CloseConn(conn) =>
      w.(selections := Release(w.selections, conn), history := w.history + [Released(conn)])
    case Read(conn, ref) =>
      (match ReadSBO(objs, w.selections, ref, conn, w.now)
       case None => w
       case Some(s) => w.(selections := s, history := w.history + [Selected(ref, s[ref])]))
    case Write(q) =>
      var e := ControlWrite(objs, w.selections, q, w.now);
      if !e.answer.Success? then w
      else if q.phase == Cancel then
        w.(selections := e.selections, history := w.history + [Cancelled(q.ref, q.conn)])
      else if e.executed then
        w.(selections := e.selections,
           history := w.history + [Executed(q.ref, q.conn, q.ctlNum, q.phase, w.now)])
      else w.(selections := e.selections, history := w.history + [Selected(q.ref, e.selections[q.ref])])
  }

  function Run(objs: Objects, actions: seq<Action>): (w: World)
    decreases |actions|
  {
    if actions == [] then World(0, map[], [])
    else Step(objs, Run(objs, actions[..|actions| - 1]), actions[|actions| - 1])
  }

  // The reservation a history leaves: the last selection of ref with nothing
  // after it that ends it.
  function Holder(h: seq<Event>, ref: Ref): (r: Option<nat>)
    ensures r.Some? ==> r.value < |h| && h[r.value].Selected? && h[r.value].ref == ref
    decreases |h|
  {
    if h == [] then None
    else
      var before := Holder(h[..|h| - 1], ref);
      match h[|h| - 1]
      case Selected(r, _) => if r == ref then Some(|h| - 1) else before
      case Executed(r, _, _, _, _) => if r == ref then None else before
      case Cancelled(r, _) => if r == ref then None else before
      case Released(conn) => if before.Some? && h[before.value].sel.conn == conn then None else before
  }

  // The reservation in the table is the one the history leaves.
  ghost predicate Kept(w: World, ref: Ref)
  {
    match Holder(w.history, ref)
    case None => ref !in w.selections
    case Some(i) => ref in w.selections && w.selections[ref] == w.history[i].sel
  }

  ghost predicate Faithful(w: World)
  {
    forall ref: Ref :: Kept(w, ref)
  }

  lemma HolderSnoc(h: seq<Event>, e: Event, ref: Ref)
    ensures
      var before := Holder(h, ref);
      Holder(h + [e], ref) ==
      match e
      case Selected(r, _) => if r == ref then Some(|h|) else before
      case Executed(r, _, _, _, _) => if r == ref then None else before
      case Cancelled(r, _) => if r == ref then None else before
      case Released(conn) => if before.Some? && h[before.value].sel.conn == conn then None else before
  {
    assert (h + [e])[..|h|] == h;
  }

  lemma EventKeeps(w: World, w': World, e: Event, ref: Ref)
    requires Kept(w, ref) && w'.history == w.history + [e]
    requires
      match e
      case Selected(r, sel) => w'.selections == w.selections[r := sel]
      case Executed(r, _, _, _, _) => w'.selections == Clear(w.selections, r)
      case Cancelled(r, _) => w'.selections == Clear(w.selections, r)
      case Released(conn) => w'.selections == Release(w.selections, conn)
    ensures Kept(w', ref)
  {
    hide Holder;
    HolderSnoc(w.history, e, ref);
  }

  lemma StepFaithful(objs: Objects, w: World, a: Action)
    requires Faithful(w)
    ensures Faithful(Step(objs, w, a))
  {
    hide Holder, Screen, CheckCancel, CheckSelection, Clear, Release;
    var w' := Step(objs, w, a);
    forall ref: Ref
      ensures Kept(w', ref)
    {
      assert Kept(w, ref);
      if w' != w && !a.Tick? {
        EventKeeps(w, w', w'.history[|w.history|], ref);
      }
    }
  }

  lemma {:induction false} RunFaithful(objs: Objects, actions: seq<Action>)
    ensures Faithful(Run(objs, actions))
    decreases |actions|
  {
    hide Step;
    if actions != [] {
      RunFaithful(objs, actions[..|actions| - 1]);
      StepFaithful(objs, Run(objs, actions[..|actions| - 1]), actions[|actions| - 1]);
    }
  }

  // Safety

  // What uses up or replaces a reservation of ref held by conn.
  predicate Ends(e: Event, ref: Ref, conn: Conn)
  {
    match e
    case Selected(r, _) => r == ref
    case Executed(r, _, _, _, _) => r == ref
    case Cancelled(r, _) => r == ref
    case Released(c) => c == conn
  }

  // The selection at s is the one the operate at e was carried out under.
  ghost predicate Licenses(h: seq<Event>, s: nat, e: nat)
  {
    && s < e < |h| && h[s].Selected? && h[e].Executed?
    && h[s].ref == h[e].ref
    && h[s].sel.conn == h[e].conn
    && h[e].at < h[s].sel.expiry
    && (h[s].sel.hasCtlNum ==> h[s].sel.ctlNum == h[e].ctlNum)
    && forall i | s < i < e :: !Ends(h[i], h[e].ref, h[e].conn)
  }

  lemma {:induction false} HolderUndisturbed(h: seq<Event>, ref: Ref)
    ensures var s := Holder(h, ref);
      s.Some? ==> forall i | s.value < i < |h| :: !Ends(h[i], ref, h[s.value].sel.conn)
    decreases |h|
  {
    if h != [] {
      var front := h[..|h| - 1];
      HolderUndisturbed(front, ref);
      var s := Holder(h, ref);
      if s.Some? && s.value < |h| - 1 {
        assert Holder(front, ref) == s && front[s.value] == h[s.value];
        forall i | s.value < i < |h| ensures !Ends(h[i], ref, h[s.value].sel.conn) {
          if i < |h| - 1 { assert h[i] == front[i]; }
        }
      }
    }
  }

  ghost predicate AllLicensed(objs: Objects, h: seq<Event>)
  {
    forall e: nat | e < |h| && h[e].Executed? && h[e].phase == Oper && RequiresSelection(objs, h[e].ref) ::
      exists s: nat :: Licenses(h, s, e)
  }

  lemma LicensesSnoc(h: seq<Event>, x: Event, s: nat, e: nat)
    requires Licenses(h, s, e)
    ensures Licenses(h + [x], s, e)
  {
    var g := h + [x];
    assert g[s] == h[s] && g[e] == h[e];
    forall i | s < i < e ensures !Ends(g[i], g[e].ref, g[e].conn) { assert g[i] == h[i]; }
  }

  lemma OperLicensed(objs: Objects, w: World, q: Request)
    requires Faithful(w) && q.phase == Oper && RequiresSelection(objs, q.ref)
    requires ControlWrite(objs, w.selections, q, w.now).executed
    ensures
      var h := w.history + [Executed(q.ref, q.conn, q.ctlNum, q.phase, w.now)];
      exists s: nat :: Licenses(h, s, |w.history|)
  {
    var h := w.history + [Executed(q.ref, q.conn, q.ctlNum, q.phase, w.now)];
    assert CheckSelection(w.selections, q.ref, q.conn, q.ctlNum, w.now) == CauseNone;
    assert Kept(w, q.ref);
    var s := Holder(w.history, q.ref).value;
    HolderUndisturbed(w.history, q.ref);
    forall i | s < i < |w.history| ensures !Ends(h[i], q.ref, q.conn) { assert h[i] == w.history[i]; }
    assert h[s] == w.history[s];
    assert Licenses(h, s, |w.history|);
  }

  lemma StepLicensed(objs: Objects, w: World, a: Action)
    requires Faithful(w) && AllLicensed(objs, w.history)
    ensures AllLicensed(objs, Step(objs, w, a).history)
  {
    hide ControlWrite, ReadSBO, Release, Holder, Licenses;
    var w' := Step(objs, w, a);
    var h := w.history;
    if w'.history != h {
      var x := w'.history[|h|];
      assert w'.history == h + [x];
      forall e: nat | e < |w'.history| && w'.history[e].Executed? && w'.history[e].phase == Oper
                      && RequiresSelection(objs, w'.history[e].ref)
        ensures exists s: nat :: Licenses(w'.history, s, e)
      {
        if e < |h| {
          assert w'.history[e] == h[e];
          var s: nat :| Licenses(h, s, e);
          LicensesSnoc(h, x, s, e);
        } else {
          OperLicensed(objs, w, a.req);
        }
      }
    }
  }

  // In every run, each operate carried out by an $Oper write on an
  // select-before-operate object was licensed: an unexpired selection of that
  // object by the same association, with the same control number if it
  // carried one, not used up, replaced or released in between.
  lemma {:induction false} ExecutionsLicensed(objs: Objects, actions: seq<Action>)
    ensures AllLicensed(objs, Run(objs, actions).history)
    decreases |actions|
  {
    hide Step, Licenses;
    if actions != [] {
      var before := actions[..|actions| - 1];
      ExecutionsLicensed(objs, before);
      RunFaithful(objs, before);
      StepLicensed(objs, Run(objs, before), actions[|actions| - 1]);
    }
  }

  // A selection licenses at most one execution.
  lemma LicensesOnce(h: seq<Event>, s: nat, e1: nat, e2: nat)
    requires Licenses(h, s, e1) && Licenses(h, s, e2)
    ensures e1 == e2
  {
    if e1 < e2 {
      assert Ends(h[e1], h[e2].ref, h[e2].conn);
    } else if e2 < e1 {
      assert Ends(h[e2], h[e1].ref, h[e1].conn);
    }
  }

  lemma {:induction false} UndisturbedHolds(h: seq<Event>, s: nat, ref: Ref)
    requires s < |h| && h[s].Selected? && h[s].ref == ref
    requires forall i | s < i < |h| :: !Ends(h[i], ref, h[s].sel.conn)
    ensures Holder(h, ref) == Some(s)
    decreases |h|
  {
    if s < |h| - 1 {
      var front := h[..|h| - 1];
      assert front[s] == h[s];
      UndisturbedHolds(front, s, ref);
      assert !Ends(h[|h| - 1], ref, h[s].sel.conn);
    }
  }

  // Two selections of one object by different associations, the first not
  // given up in between: the second was granted only after the first expired.
  ghost predicate Exclusive(objs: Objects, h: seq<Event>, s1: nat, s2: nat)
  {
    s1 < s2 < |h| && h[s1].Selected? && h[s2].Selected? && h[s1].ref == h[s2].ref
    && h[s1].sel.conn != h[s2].sel.conn
    && (forall i | s1 < i < s2 :: !Ends(h[i], h[s1].ref, h[s1].sel.conn))
    ==> h[s1].sel.expiry <= h[s2].sel.expiry - Timeout(objs, h[s2].ref)
  }

  lemma GrantExclusive(objs: Objects, w: World, a: Action, s1: nat)
    requires Faithful(w) && Step(objs, w, a).history != w.history
    ensures Exclusive(objs, Step(objs, w, a).history, s1, |w.history|)
  {
    hide Screen, CheckCancel, CheckSelection, Holder;
    var h := w.history;
    var h' := Step(objs, w, a).history;
    if s1 < |h| && h'[s1].Selected? && h'[|h|].Selected? && h'[s1].ref == h'[|h|].ref
       && forall i | s1 < i < |h| :: !Ends(h'[i], h'[s1].ref, h'[s1].sel.conn) {
      forall i | s1 < i < |h| ensures !Ends(h[i], h[s1].ref, h[s1].sel.conn) { assert h[i] == h'[i]; }
      UndisturbedHolds(h, s1, h[s1].ref);
      assert Kept(w, h[s1].ref);
    }
  }

  lemma ExclusivePrefix(objs: Objects, h: seq<Event>, h': seq<Event>, s1: nat, s2: nat)
    requires |h| <= |h'| && h'[..|h|] == h && s2 < |h| && Exclusive(objs, h, s1, s2)
    ensures Exclusive(objs, h', s1, s2)
  {
    assert forall i | 0 <= i < |h| :: h'[i] == h'[..|h|][i] == h[i];
    if s1 < s2 && h[s1].Selected? && forall i | s1 < i < s2 :: !Ends(h'[i], h[s1].ref, h[s1].sel.conn) {
      assert forall i | s1 < i < s2 :: !Ends(h[i], h[s1].ref, h[s1].sel.conn);
    }
  }

  // At most one association holds a live reservation of an object, in every run.
  lemma {:induction false} ReservationsExclusive(objs: Objects, actions: seq<Action>, s1: nat, s2: nat)
    ensures Exclusive(objs, Run(objs, actions).history, s1, s2)
    decreases |actions|
  {
    if actions != [] {
      hide Step, Exclusive;
      var before := actions[..|actions| - 1];
      var w := Run(objs, before);
      ReservationsExclusive(objs, before, s1, s2);
      RunFaithful(objs, before);
      var w' := Step(objs, w, actions[|actions| - 1]);
      HistoryGrows(objs, w, actions[|actions| - 1]);
      if w'.history != w.history {
        if s2 < |w.history| {
          ExclusivePrefix(objs, w.history, w'.history, s1, s2);
        } else if s2 == |w.history| {
          GrantExclusive(objs, w, actions[|actions| - 1], s1);
        } else {
          OutOfRange(objs, w'.history, s1, s2);
        }
      }
    }
  }

  lemma OutOfRange(objs: Objects, h: seq<Event>, s1: nat, s2: nat)
    requires s2 >= |h|
    ensures Exclusive(objs, h, s1, s2)
  {}

  lemma HistoryGrows(objs: Objects, w: World, a: Action)
    ensures var h' := Step(objs, w, a).history;
      h' == w.history || (|h'| == |w.history| + 1 && h'[..|w.history|] == w.history)
  {
    hide ControlWrite, ReadSBO;
  }

  function Actor(a: Action): Option<Conn>
  {
    match a
    case Read(conn, _) => Some(conn)
    case Write(q) => Some(q.conn)
    case CloseConn(conn) => Some(conn)
    case Tick(_) => None
  }

  // An accepted write of a structure to $SBO of ref, which no check guards.
  predicate Bypasses(objs: Objects, w: World, a: Action, ref: Ref)
  {
    a.Write? && a.req.ref == ref && a.req.phase == SBO && ControlWrite(objs, w.selections, a.req, w.now).executed
  }

  // A live reservation is not ended, nor replaced, by anything another
  // association does, except exactly by an accepted structure written to $SBO.
  lemma OthersCannotEnd(objs: Objects, w: World, a: Action, ref: Ref)
    requires RequiresSelection(objs, ref) && Live(w.selections, ref, w.now)
    requires Actor(a) != Some(w.selections[ref].conn)
    ensures
      var sel := Step(objs, w, a).selections;
      (ref in sel && sel[ref] == w.selections[ref]) <==> !Bypasses(objs, w, a, ref)
  {
    hide Screen;
  }

  // An execution on such an object happens without a matching live selection
  // exactly when it is that kind of write.
  lemma ExecutionNeedsSelection(objs: Objects, w: World, q: Request)
    requires RequiresSelection(objs, q.ref) && ControlWrite(objs, w.selections, q, w.now).executed
    ensures q.phase == Oper || q.phase == SBO
    ensures q.phase == Oper ==> CheckSelection(w.selections, q.ref, q.conn, q.ctlNum, w.now) == CauseNone
    ensures
      forall sel2 | q.phase == SBO :: ControlWrite(objs, sel2, q, w.now).executed
  {
    hide Screen;
  }

  // The write that shows it: nobody has selected the object, and a structure
  // written to its $SBO is carried out.
  lemma UnselectedWriteExecutes()
    ensures
      var objs := map["LD/LN.SPCSO1" := Object(Some(SBONormal), {Oper, SBO, Cancel}, 0)];
      var q := Request(1, "LD/LN.SPCSO1", SBO, true, true, true, 0, false, 0, CauseNone);
      RequiresSelection(objs, q.ref) && Run(objs, [Write(q)]).history == [Executed(q.ref, 1, 0, SBO, 0)]
  {
    var objs := map["LD/LN.SPCSO1" := Object(Some(SBONormal), {Oper, SBO, Cancel}, 0)];
    var q := Request(1, "LD/LN.SPCSO1", SBO, true, true, true, 0, false, 0, CauseNone);
    assert [Write(q)][..0] == [];
    assert Run(objs, []) == World(0, map[], []);
    assert Screen(objs, q) == Success;
  }

  function Elapsed(actions: seq<Action>): nat
    decreases |actions|
  {
    if actions == [] then 0
    else
      var a := actions[|actions| - 1];
      Elapsed(actions[..|actions| - 1]) + if a.Tick? then a.ms else 0
  }

  // The clock of a run is what its ticks add up to.
  lemma {:induction false} TimePasses(objs: Objects, actions: seq<Action>)
    ensures Run(objs, actions).now == Elapsed(actions)
    decreases |actions|
  {
    if actions != [] {
      hide ControlWrite, ReadSBO;
      TimePasses(objs, actions[..|actions| - 1]);
    }
  }

  // Every operate of a history was asked for, permitted and agreed to.
  ghost predicate AllAgreed(objs: Objects, actions: seq<Action>, h: seq<Event>)
  {
    forall x | x in h && x.Executed? :: exists a | a in actions && a.Write? :: AgreedTo(objs, a.req, x)
  }

  predicate AgreedTo(objs: Objects, q: Request, x: Event)
    requires x.Executed?
  {
    && Permitted(objs, q) && q.handler == CauseNone
    && q.ref == x.ref && q.conn == x.conn && q.ctlNum == x.ctlNum && q.phase == x.phase
  }

  // In every run, no operate is carried out that was not written, that the control
  // model does not permit or that the handler refused.
  lemma {:induction false} ExecutionsAgreed(objs: Objects, actions: seq<Action>)
    ensures AllAgreed(objs, actions, Run(objs, actions).history)
    decreases |actions|
  {
    hide Step, AgreedTo;
    if actions != [] {
      var before, a := actions[..|actions| - 1], actions[|actions| - 1];
      ExecutionsAgreed(objs, before);
      var w := Run(objs, before);
      forall x | x in Run(objs, actions).history && x.Executed?
        ensures exists b | b in actions && b.Write? :: AgreedTo(objs, b.req, x)
      {
        if x in w.history {
          var b :| b in before && b.Write? && AgreedTo(objs, b.req, x);
          assert b in actions;
        } else {
          NewExecution(objs, w, a, x);
          assert a in actions;
        }
      }
    }
  }

  lemma NewExecution(objs: Objects, w: World, a: Action, x: Event)
    requires x in Step(objs, w, a).history && x !in w.history && x.Executed?
    ensures a.Write? && AgreedTo(objs, a.req, x)
  {
    hide ControlWrite, ReadSBO, Permitted;
    if a.Write? {
      CarriedOutExactly(objs, w.selections, a.req, w.now);
    }
  }

  // The selection table as it runs

  class Table {
    const objs: Objects
    var selections: Selections

    constructor (objs: Objects)
      ensures this.objs == objs && selections == map[]
    {
      this.objs := objs;
      selections := map[];
    }

    method ReserveFor(ref: Ref, conn: Conn, ctlNum: byte, hasCtlNum: bool, now: int) returns (ok: bool)
      modifies this
      ensures
        match Reserve(objs, old(selections), ref, conn, ctlNum, hasCtlNum, now)
        case None => !ok && selections == old(selections)
        case Some(s) => ok && selections == s
    {
      if ref in selections && selections[ref].conn != conn && now < selections[ref].expiry {
        return false;
      }
      selections := selections[ref := Selection(conn, now + Timeout(objs, ref), ctlNum, hasCtlNum)];
      ok := true;
    }

    // The answer to reading $SBO: the object reference, or nothing.
    method SelectSBO(ref: Ref, conn: Conn, now: int) returns (name: string)
      modifies this
      ensures
        match ReadSBO(objs, old(selections), ref, conn, now)
        case None => name == "" && selections == old(selections)
        case Some(s) => name == ref && selections == s
    {
      var cm := DeclaredModel(objs, ref);
      if cm.Some? && cm.value != SBONormal {
        return "";
      }
      var ok := ReserveFor(ref, conn, 0, false, now);
      return if ok then ref else "";
    }

    method ReleaseSelections(conn: Conn)
      modifies this
      ensures selections == Release(old(selections), conn)
    {
      var todo := selections.Keys;
      while todo != {}
        invariant todo <= old(selections).Keys
        invariant forall r | r in todo :: r in selections
        invariant forall r | r in selections :: r in old(selections) && selections[r] == old(selections)[r]
        invariant forall r | r in old(selections).Keys - todo :: r in selections <==> old(selections)[r].conn != conn
        decreases todo
      {
        var r :| r in todo;
        if selections[r].conn == conn {
          selections := selections - {r};
        }
        todo := todo - {r};
      }
    }

    method WriteControl(q: Request, now: int) returns (a: Answer, executed: bool)
      modifies this
      ensures Effect(a, selections, executed) == ControlWrite(objs, old(selections), q, now)
    {
      executed := false;
      a := Screen(objs, q);
      if a != Success {
        return;
      }
      if q.phase == Cancel {
        var cause := CheckCancel(selections, q.ref, q.conn, q.ctlNum, now);
        if cause != CauseNone {
          return Refused(cause), false;
        }
        selections := Clear(selections, q.ref);
        return;
      }
      if q.phase == Oper && RequiresSelection(objs, q.ref) {
        var cause := CheckSelection(selections, q.ref, q.conn, q.ctlNum, now);
        if cause != CauseNone {
          return Refused(cause), false;
        }
      }
      if q.handler != CauseNone {
        return Refused(q.handler), false;
      }
      if q.phase == SBOw {
        var ok := ReserveFor(q.ref, q.conn, q.ctlNum, true, now);
        if !ok {
          a := Refused(ObjectAlreadySelected);
        }
        return;
      }
      selections := Clear(selections, q.ref);
      executed := true;
    }
  }
}
