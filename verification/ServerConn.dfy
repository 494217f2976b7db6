// The order of PDUs on one server association (mms/server_conn.go): the
// request being served, the unconfirmed PDUs held for it, and the queue that
// a second goroutine writes from.

module ServerConn {
  import opened Options

  // An unconfirmed PDU handed over: its number in the order of submission,
  // the request it was handed over during, and whether it must precede that
  // request's response.
  datatype Sub = Sub(id: nat, req: Option<nat>, first: bool)

  datatype Item = Unconfirmed(sub: Sub) | Response(req: nat)

  // Where the goroutine that serves requests is.
  datatype Phase =
    | Idle
    | Handling
    | Flushing(before: seq<Sub>, after: seq<Sub>)
    | Queueing(after: seq<Sub>)

  const QUEUE_CAPACITY := 512

  datatype State = State(
    inReq: bool,
    before: seq<Sub>,
    after: seq<Sub>,
    phase: Phase,
    req: nat,
    deferred: set<nat>,
    running: set<nat>,
    queue: seq<Sub>,
    closed: bool,
    taken: Option<Sub>,
    wire: seq<Item>,
    submitted: seq<Sub>)

  const INITIAL := State(false, [], [], Idle, 0, {}, {}, [], false, None, [], [])

  datatype Action =
    | Begin
    | Submit(first: bool)
    | End
    | WriteBefore
    | WriteResponse
    | Defer
    | DeferredResponse(r: nat)
    | QueueAfter
    | Finish
    | Take
    | WriteTaken
    | CloseQueue

  // Onto the queue, or dropped when it is full or closed.
  function Enqueue(s: State, sub: Sub): State
  {
    if s.closed || |s.queue| >= QUEUE_CAPACITY then s else s.(queue := s.queue + [sub])
  }

  function Next(s: State, a: Action): (s': State)
  {
    match a
    case Begin => if s.phase.Idle? then s.(phase := Handling, inReq := true, req := s.req + 1) else s
    case Submit(first) =>
      var id := |s.submitted|;
      var sub := Sub(id, if s.inReq then Some(s.req) else None, first);
      var t := s.(submitted := s.submitted + [sub]);
      if !s.inReq then Enqueue(t, sub)
      else if first then t.(before := t.before + [sub])
      else t.(after := t.after + [sub])
    case End =>
      if s.phase.Handling? then
        s.(inReq := false, before := [], after := [], phase := Flushing(s.before, s.after))
      else s
    case WriteBefore =>
      if s.phase.Flushing? && s.phase.before != [] then
        s.(wire := s.wire + [Unconfirmed(s.phase.before[0])], phase := Flushing(s.phase.before[1..], s.phase.after))
      else s
    case WriteResponse =>
      if s.phase.Flushing? && s.phase.before == [] then
        s.(wire := s.wire + [Response(s.req)], phase := Queueing(s.phase.after))
      else s
    case Defer =>
      if s.phase.Flushing? && s.phase.before == [] then
        s.(deferred := s.deferred + {s.req}, running := s.running + {s.req}, phase := Queueing(s.phase.after))
      else s
    case DeferredResponse(r) =>
      if r in s.running then s.(running := s.running - {r}, wire := s.wire + [Response(r)]) else s
    case QueueAfter =>
      if s.phase.Queueing? && s.phase.after != [] then
        Enqueue(s.(phase := Queueing(s.phase.after[1..])), s.phase.after[0])
      else s
    case Finish => if s.phase == Queueing([]) then s.(phase := Idle) else s
    case Take => if s.taken.None? && s.queue != [] then s.(taken := Some(s.queue[0]), queue := s.queue[1..]) else s
    case WriteTaken =>
      if s.taken.Some? then s.(taken := None, wire := s.wire + [Unconfirmed(s.taken.value)]) else s
    case CloseQueue => s.(closed := true)
  }

  function Run(actions: seq<Action>): (s: State)
    decreases |actions|
  {
    if actions == [] then INITIAL else Next(Run(actions[..|actions| - 1]), actions[|actions| - 1])
  }

  // What is held for the request in progress.
  function PendingBefore(s: State): seq<Sub>
  {
    if s.phase.Flushing? then s.phase.before else s.before
  }

  function PendingAfter(s: State): seq<Sub>
  {
    if s.phase.Flushing? || s.phase.Queueing? then s.phase.after else s.after
  }

  ghost predicate Answered(s: State, r: nat)
  {
    r in s.deferred || Response(r) in s.wire
  }

  // Request r is over as far as what is held for it goes.
  predicate Past(s: State, r: nat)
  {
    r < s.req || (r == s.req && (s.phase.Idle? || s.phase.Queueing?))
  }

  ghost predicate HeldWell(s: State)
  {
    && (s.inReq <==> s.phase.Handling?)
    && (!s.phase.Handling? ==> s.before == [] && s.after == [])
    && (s.phase.Idle? ==> PendingAfter(s) == [])
    && (forall sub | sub in PendingBefore(s) :: sub.first && sub.req == Some(s.req))
    && (forall sub | sub in PendingAfter(s) :: !sub.first && sub.req == Some(s.req))
    && (s.phase.Queueing? && PendingAfter(s) != [] ==> Answered(s, s.req))
  }

  ghost predicate QueuedWell(s: State, sub: Sub)
  {
    sub.req.Some? ==> !sub.first && Answered(s, sub.req.value)
  }

  ghost predicate Answers(s: State)
  {
    && (forall r | r in s.deferred :: Past(s, r))
    && s.running <= s.deferred
    && (forall r | Response(r) in s.wire :: Past(s, r))
    && (forall sub | sub in s.queue :: QueuedWell(s, sub))
    && (s.taken.Some? ==> QueuedWell(s, s.taken.value))
  }

  // On the wire: what must precede a response does, what must follow does.
  ghost predicate WireOrder(s: State)
  {
    && (forall i, j | 0 <= i < |s.wire| && 0 <= j < |s.wire| && s.wire[i].Unconfirmed? && s.wire[j].Response? ::
          s.wire[i].sub.first && s.wire[i].sub.req == Some(s.wire[j].req) ==> i < j)
    && (forall i | 0 <= i < |s.wire| && s.wire[i].Unconfirmed? :: Followed(s, i))
  }

  ghost predicate Followed(s: State, i: nat)
    requires i < |s.wire| && s.wire[i].Unconfirmed?
  {
    var sub := s.wire[i].sub;
    sub.req.Some? && !sub.first ==> sub.req.value in s.deferred || Response(sub.req.value) in s.wire[..i]
  }

  // Nothing that must precede a response is lost.
  ghost predicate FirstsKept(s: State)
  {
    forall sub | sub in s.submitted && sub.first && sub.req.Some? ::
      Unconfirmed(sub) in s.wire || sub in PendingBefore(s)
  }

  ghost predicate Inv(s: State)
  {
    HeldWell(s) && Answers(s) && WireOrder(s) && FirstsKept(s)
  }

  lemma WireSnoc(s: State, s': State, x: Item)
    requires WireOrder(s) && s'.wire == s.wire + [x] && s.deferred <= s'.deferred
    requires x.Unconfirmed? && x.sub.req.Some? && x.sub.first ==> Response(x.sub.req.value) !in s.wire
    requires x.Unconfirmed? && x.sub.req.Some? && !x.sub.first ==> Answered(s, x.sub.req.value)
    ensures WireOrder(s')
  {
    forall i | 0 <= i < |s'.wire| && s'.wire[i].Unconfirmed?
      ensures Followed(s', i)
    {
      if i < |s.wire| {
        assert Followed(s, i);
        assert s'.wire[..i] == s.wire[..i];
      } else {
        assert s'.wire[..i] == s.wire;
      }
    }
  }

  lemma SubmitKeeps(s: State, first: bool)
    requires Inv(s)
    ensures Inv(Next(s, Submit(first)))
  {
    hide WireOrder;
    var s' := Next(s, Submit(first));
    WireUnchanged(s, s');
    var sub := s'.submitted[|s.submitted|];
    forall x | x in s'.submitted && x.first && x.req.Some?
      ensures Unconfirmed(x) in s'.wire || x in PendingBefore(s')
    {
      if x != sub { assert x in s.submitted; }
    }
  }

  lemma WireUnchanged(s: State, s': State)
    requires WireOrder(s) && s'.wire == s.wire && s.deferred <= s'.deferred
    ensures WireOrder(s')
  {
    forall i | 0 <= i < |s'.wire| && s'.wire[i].Unconfirmed? ensures Followed(s', i) { assert Followed(s, i); }
  }

  lemma FlushKeeps(s: State, a: Action)
    requires Inv(s) && (a.WriteBefore? || a.WriteResponse? || a.Defer?)
    ensures Inv(Next(s, a))
  {
    var s' := Next(s, a);
    if s' != s {
      if a.Defer? {
        hide WireOrder;
        WireUnchanged(s, s');
      } else {
        hide WireOrder;
        WireSnoc(s, s', s'.wire[|s.wire|]);
      }
      forall sub | sub in s'.submitted && sub.first && sub.req.Some?
        ensures Unconfirmed(sub) in s'.wire || sub in PendingBefore(s')
      {
        assert sub in s.submitted;
      }
    }
  }

  lemma FirstsStay(s: State, s': State)
    requires FirstsKept(s) && s'.submitted == s.submitted
    requires PendingBefore(s') == PendingBefore(s) && forall x | x in s.wire :: x in s'.wire
    ensures FirstsKept(s')
  {}

  lemma TakeKeeps(s: State)
    requires Inv(s)
    ensures Inv(Next(s, Take))
  {
    hide WireOrder, FirstsKept;
    var s' := Next(s, Take);
    WireUnchanged(s, s');
    FirstsStay(s, s');
    assert forall sub | sub in s'.queue :: sub in s.queue;
    assert s.queue != [] ==> s.queue[0] in s.queue;
    assert forall sub | QueuedWell(s, sub) :: QueuedWell(s', sub);
  }

  lemma WriteTakenKeeps(s: State)
    requires Inv(s)
    ensures Inv(Next(s, WriteTaken))
  {
    hide WireOrder, FirstsKept;
    if s.taken.Some? {
      WireSnoc(s, Next(s, WriteTaken), Unconfirmed(s.taken.value));
      FirstsStay(s, Next(s, WriteTaken));
    }
  }

  lemma QueueAfterKeeps(s: State)
    requires Inv(s)
    ensures Inv(Next(s, QueueAfter))
  {
    hide WireOrder, FirstsKept;
    var s' := Next(s, QueueAfter);
    WireUnchanged(s, s');
    FirstsStay(s, s');
  }

  lemma DeferredResponseKeeps(s: State, r: nat)
    requires Inv(s)
    ensures Inv(Next(s, DeferredResponse(r)))
  {
    hide WireOrder, FirstsKept;
    if r in s.running {
      WireSnoc(s, Next(s, DeferredResponse(r)), Response(r));
      FirstsStay(s, Next(s, DeferredResponse(r)));
    }
  }

  lemma PhaseKeeps(s: State, a: Action)
    requires Inv(s) && (a.Begin? || a.End? || a.Finish? || a.CloseQueue?)
    ensures Inv(Next(s, a))
  {
    hide WireOrder;
    WireUnchanged(s, Next(s, a));
  }

  lemma StepKeeps(s: State, a: Action)
    requires Inv(s)
    ensures Inv(Next(s, a))
  {
    hide Inv, Next;
    match a
    case Submit(first) => SubmitKeeps(s, first);
    case WriteBefore => FlushKeeps(s, a);
    case WriteResponse => FlushKeeps(s, a);
    case Defer => FlushKeeps(s, a);
    case Take => TakeKeeps(s);
    case WriteTaken => WriteTakenKeeps(s);
    case QueueAfter => QueueAfterKeeps(s);
    case DeferredResponse(r) => DeferredResponseKeeps(s, r);
    case _ => PhaseKeeps(s, a);
  }

  lemma {:induction false} RunKeeps(actions: seq<Action>)
    ensures Inv(Run(actions))
    decreases |actions|
  {
    if actions != [] {
      hide Inv, Next;
      RunKeeps(actions[..|actions| - 1]);
      StepKeeps(Run(actions[..|actions| - 1]), actions[|actions| - 1]);
    }
  }

  // In every run, whatever was handed over to precede the response of the
  // request then being served is on the wire before that response, deferred or
  // not; and what was handed over to follow it is on the wire only after it
  // unless the response was deferred.
  lemma ResponseOrder(actions: seq<Action>, j: nat, i: nat)
    ensures
      var s := Run(actions);
      j < |s.wire| && s.wire[j].Response? ==>
        forall sub | sub in s.submitted && sub.first && sub.req == Some(s.wire[j].req) ::
          Unconfirmed(sub) in s.wire[..j]
    ensures
      var s := Run(actions);
      i < |s.wire| && s.wire[i].Unconfirmed? && !s.wire[i].sub.first && s.wire[i].sub.req.Some?
      && s.wire[i].sub.req.value !in s.deferred
      ==> Response(s.wire[i].sub.req.value) in s.wire[..i]
  {
    var s := Run(actions);
    RunKeeps(actions);
    if j < |s.wire| && s.wire[j].Response? {
      forall sub | sub in s.submitted && sub.first && sub.req == Some(s.wire[j].req)
        ensures Unconfirmed(sub) in s.wire[..j]
      {
        assert Response(s.wire[j].req) in s.wire;
        assert Unconfirmed(sub) in s.wire;
        var k :| 0 <= k < |s.wire| && s.wire[k] == Unconfirmed(sub);
        assert s.wire[..j][k] == Unconfirmed(sub);
      }
    }
    if i < |s.wire| && s.wire[i].Unconfirmed? {
      assert Followed(s, i);
    }
  }

  // A deferred response can be overtaken by what was handed over to follow it:
  // that goes onto the queue at once, and the response comes when it comes.
  const OVERTAKING: seq<Action> :=
    [Begin, Submit(false), End, Defer, QueueAfter, Take, WriteTaken, DeferredResponse(1)]

  lemma DeferredIsOvertaken()
    ensures
      var s := Run(OVERTAKING);
      s.deferred == {1} && s.wire == [Unconfirmed(Sub(0, Some(1), false)), Response(1)]
  {
    hide Next, Run;
    var s5 := OvertakingServed();
    var s8 := OvertakingWritten(s5);
    RunOf(OVERTAKING, 0);
    RunOf(OVERTAKING, 1);
    RunOf(OVERTAKING, 2);
    RunOf(OVERTAKING, 3);
    RunOf(OVERTAKING, 4);
    RunOf(OVERTAKING, 5);
    RunOf(OVERTAKING, 6);
    RunOf(OVERTAKING, 7);
    NothingDone(OVERTAKING);
    assert OVERTAKING[..8] == OVERTAKING;
  }

  lemma NothingDone(actions: seq<Action>)
    ensures Run(actions[..0]) == INITIAL
  {}

  lemma OvertakingServed() returns (s: State)
    ensures s == Next(Next(Next(Next(Next(INITIAL, Begin), Submit(false)), End), Defer), QueueAfter)
    ensures
      var sub := Sub(0, Some(1), false);
      s == State(false, [], [], Queueing([]), 1, {1}, {1}, [sub], false, None, [], [sub])
  {
    var sub := Sub(0, Some(1), false);
    s := State(false, [], [], Queueing([]), 1, {1}, {1}, [sub], false, None, [], [sub]);
    var s4 := State(false, [], [], Queueing([sub]), 1, {1}, {1}, [], false, None, [], [sub]);
    var none: set<nat> := {};
    assert none + {1} == {1} && [] + [sub] == [sub];
    assert Next(Next(Next(Next(INITIAL, Begin), Submit(false)), End), Defer) == s4;
    assert Next(s4, QueueAfter) == s by { assert [sub][1..] == []; }
  }

  lemma OvertakingWritten(s: State) returns (t: State)
    requires s.queue == [Sub(0, Some(1), false)] && s.taken.None? && s.wire == [] && s.running == {1}
    ensures t == Next(Next(Next(s, Take), WriteTaken), DeferredResponse(1))
    ensures t.deferred == s.deferred && t.wire == [Unconfirmed(Sub(0, Some(1), false)), Response(1)]
  {
    t := Next(Next(Next(s, Take), WriteTaken), DeferredResponse(1));
  }

  lemma RunOf(actions: seq<Action>, i: nat)
    requires i < |actions|
    ensures Run(actions[..i + 1]) == Next(Run(actions[..i]), actions[i])
  {
    hide Next;
    assert actions[..i + 1][..i] == actions[..i];
  }

  // Submission order

  // The numbers of the PDUs of one request and one side of its response.
  function Select(subs: seq<Sub>, r: nat, first: bool): (ids: seq<nat>)
  {
    if subs == [] then []
    else (if subs[0].req == Some(r) && subs[0].first == first then [subs[0].id] else []) + Select(subs[1..], r, first)
  }

  function OnWire(wire: seq<Item>): (subs: seq<Sub>)
  {
    if wire == [] then [] else (if wire[0].Unconfirmed? then [wire[0].sub] else []) + OnWire(wire[1..])
  }

  function TakenSeq(s: State): seq<Sub> { if s.taken.Some? then [s.taken.value] else [] }

  // Every PDU still under way, in the order it will reach the wire as far as
  // its own request and side go.
  function Line(s: State, r: nat, first: bool): (ids: seq<nat>)
  {
    Cat(Select(OnWire(s.wire), r, first), Select(TakenSeq(s), r, first), Select(s.queue, r, first),
        Select(PendingBefore(s), r, first), Select(PendingAfter(s), r, first))
  }

  function Cat(a: seq<nat>, b: seq<nat>, c: seq<nat>, d: seq<nat>, e: seq<nat>): seq<nat>
  {
    a + (b + (c + (d + e)))
  }

  // How the parts of a line pass numbers on.
  lemma CatMoves(a: seq<nat>, b: seq<nat>, c: seq<nat>, d: seq<nat>, e: seq<nat>, x: seq<nat>)
    ensures Cat(a + x, b, c, d, e) == Cat(a, x + b, c, d, e)
    ensures Cat(a, [], x + c, d, e) == Cat(a, x, c, d, e)
    ensures Cat(a + x, [], [], d, e) == Cat(a, [], [], x + d, e)
    ensures Cat(a, b, c + x, [], e) == Cat(a, b, c, [], x + e)
  {
    assert (a + x) + (b + (c + (d + e))) == a + (x + (b + (c + (d + e))));
    assert x + (b + (c + (d + e))) == (x + b) + (c + (d + e));
    assert [] + ((x + c) + (d + e)) == x + (c + (d + e));
    assert (a + x) + ([] + ([] + (d + e))) == a + ([] + ([] + ((x + d) + e)));
    assert (c + x) + ([] + e) == c + ([] + (x + e));
  }

  lemma CatGrows(a: seq<nat>, b: seq<nat>, c: seq<nat>, d: seq<nat>, e: seq<nat>, x: seq<nat>)
    ensures Cat(a, b, c, d, e + x) == Cat(a, b, c, d, e) + x
    ensures Cat(a, b, c, d + x, []) == Cat(a, b, c, d, []) + x
  {
    assert d + (e + x) == (d + e) + x;
    assert (d + x) + [] == (d + []) + x;
    assert c + ((d + e) + x) == (c + (d + e)) + x;
    assert c + ((d + []) + x) == (c + (d + [])) + x;
    assert b + ((c + (d + e)) + x) == (b + (c + (d + e))) + x;
    assert b + ((c + (d + [])) + x) == (b + (c + (d + []))) + x;
  }

  lemma CatDrops(a: seq<nat>, b: seq<nat>, c: seq<nat>, e: seq<nat>, x: nat)
    ensures exists k | 0 <= k < |Cat(a, b, c, [], [x] + e)| ::
      Cat(a, b, c, [], e) == Cat(a, b, c, [], [x] + e)[..k] + Cat(a, b, c, [], [x] + e)[k + 1..]
  {
    var l := Cat(a, b, c, [], [x] + e);
    var front := a + (b + c);
    assert l == front + ([x] + e);
    assert Cat(a, b, c, [], e) == front + e;
    var k := |front|;
    assert l[..k] == front && l[k + 1..] == e;
  }

  ghost predicate Increasing(ids: seq<nat>)
  {
    forall i, j | 0 <= i < j < |ids| :: ids[i] < ids[j]
  }

  ghost predicate InOrder(s: State, r: nat, first: bool)
  {
    Increasing(Line(s, r, first)) && forall id | id in Line(s, r, first) :: id < |s.submitted|
  }

  lemma {:induction false} SelectConcat(a: seq<Sub>, b: seq<Sub>, r: nat, first: bool)
    ensures Select(a + b, r, first) == Select(a, r, first) + Select(b, r, first)
    decreases |a|
  {
    if a == [] {
      assert a + b == b;
    } else {
      assert (a + b)[1..] == a[1..] + b;
      SelectConcat(a[1..], b, r, first);
    }
  }

  lemma {:induction false} OnWireSnoc(wire: seq<Item>, x: Item)
    ensures OnWire(wire + [x]) == OnWire(wire) + if x.Unconfirmed? then [x.sub] else []
    decreases |wire|
  {
    if wire == [] {
      assert wire + [x] == [x];
    } else {
      OnWireSnoc(wire[1..], x);
      OnWireHead(wire);
      OnWireHead(wire + [x]);
      assert (wire + [x])[1..] == wire[1..] + [x];
    }
  }

  lemma OnWireHead(wire: seq<Item>)
    requires wire != []
    ensures OnWire(wire) == (if wire[0].Unconfirmed? then [wire[0].sub] else []) + OnWire(wire[1..])
  {}

  lemma {:induction false} SelectNone(subs: seq<Sub>, r: nat, first: bool)
    requires forall sub | sub in subs :: sub.req != Some(r) || sub.first != first
    ensures Select(subs, r, first) == []
    decreases |subs|
  {
    if subs != [] {
      assert subs[0] in subs;
      SelectNone(subs[1..], r, first);
    }
  }

  lemma SelectSnoc(subs: seq<Sub>, x: Sub, r: nat, first: bool)
    ensures Select(subs + [x], r, first) ==
            Select(subs, r, first) + if x.req == Some(r) && x.first == first then [x.id] else []
  {
    SelectConcat(subs, [x], r, first);
    assert [x][1..] == [];
  }

  lemma SelectHead(subs: seq<Sub>, r: nat, first: bool)
    requires subs != []
    ensures Select(subs, r, first) ==
            (if subs[0].req == Some(r) && subs[0].first == first then [subs[0].id] else [])
            + Select(subs[1..], r, first)
  {}

  lemma SelectOne(x: Sub, r: nat, first: bool)
    ensures Select([x], r, first) == if x.req == Some(r) && x.first == first then [x.id] else []
  {
    assert [x][1..] == [];
  }

  // How one step changes a line: not at all, by its newest number at the end,
  // or by one number dropped.
  ghost predicate LineStep(old': seq<nat>, new': seq<nat>, id: nat)
  {
    || new' == old'
    || new' == old' + [id]
    || exists k | 0 <= k < |old'| :: new' == old'[..k] + old'[k + 1..]
  }

  lemma LineStepKeeps(s: State, s': State, r: nat, first: bool)
    requires InOrder(s, r, first)
    requires LineStep(Line(s, r, first), Line(s', r, first), |s.submitted|)
    requires |s.submitted| <= |s'.submitted|
    requires Line(s', r, first) == Line(s, r, first) + [|s.submitted|] ==> |s'.submitted| > |s.submitted|
    ensures InOrder(s', r, first)
  {
    hide Line;
    var l, l' := Line(s, r, first), Line(s', r, first);
    if l' != l && l' != l + [|s.submitted|] {
      var k :| 0 <= k < |l| && l' == l[..k] + l[k + 1..];
      forall i, j | 0 <= i < j < |l'| ensures l'[i] < l'[j] {
        var a, b := if i < k then i else i + 1, if j < k then j else j + 1;
        assert l'[i] == l[a] && l'[j] == l[b];
      }
      forall id | id in l' ensures id in l {}
    } else {
      forall i, j | 0 <= i < j < |l'| ensures l'[i] < l'[j] {
        assert l'[i] == l[i] && l[i] in l;
        if j < |l| { assert l'[j] == l[j]; }
      }
      forall id | id in l' ensures id in l || id == |s.submitted| {}
    }
  }

  lemma QueueHoldsNoFirsts(s: State, r: nat)
    requires Answers(s)
    ensures Select(TakenSeq(s), r, true) == [] && Select(s.queue, r, true) == []
  {
    SelectNone(s.queue, r, true);
    SelectNone(TakenSeq(s), r, true);
  }

  lemma SubmitLine(s: State, first: bool, r: nat, side: bool)
    requires HeldWell(s)
    ensures LineStep(Line(s, r, side), Line(Next(s, Submit(first)), r, side), |s.submitted|)
  {
    hide Select, OnWire, Cat;
    var s' := Next(s, Submit(first));
    var sub := s'.submitted[|s.submitted|];
    var w, t, q := Select(OnWire(s.wire), r, side), Select(TakenSeq(s), r, side), Select(s.queue, r, side);
    var d, e := Select(PendingBefore(s), r, side), Select(PendingAfter(s), r, side);
    var x := if sub.req == Some(r) && sub.first == side then [sub.id] else [];
    assert forall l: seq<nat> :: l + [] == l;
    if !s.inReq {
      SelectSnoc(s.queue, sub, r, side);
    } else if first {
      SelectSnoc(s.before, sub, r, side);
      if side { SelectNone(s.after, r, true); }
      CatGrows(w, t, q, d, e, x);
    } else {
      SelectSnoc(s.after, sub, r, side);
      CatGrows(w, t, q, d, e, x);
    }
  }

  lemma WriteBeforeLine(s: State, r: nat, side: bool)
    requires HeldWell(s) && Answers(s)
    ensures Line(Next(s, WriteBefore), r, side) == Line(s, r, side)
  {
    hide Select, OnWire, Cat, Answers;
    if s.phase.Flushing? && s.phase.before != [] {
      var sub := s.phase.before[0];
      assert sub in PendingBefore(s);
      OnWireSnoc(s.wire, Unconfirmed(sub));
      SelectSnoc(OnWire(s.wire), sub, r, side);
      SelectHead(s.phase.before, r, side);
      var w, t, q := Select(OnWire(s.wire), r, side), Select(TakenSeq(s), r, side), Select(s.queue, r, side);
      var d, e := Select(s.phase.before[1..], r, side), Select(PendingAfter(s), r, side);
      if side && sub.req == Some(r) {
        QueueHoldsNoFirsts(s, r);
        CatMoves(w, t, q, d, e, [sub.id]);
      } else {
        assert w + [] == w && [] + d == d;
      }
    }
  }

  lemma TakeLine(s: State, r: nat, side: bool)
    ensures Line(Next(s, Take), r, side) == Line(s, r, side)
  {
    hide Select, OnWire, Cat;
    if s.taken.None? && s.queue != [] {
      SelectEmpty(r, side);
      SelectHead(s.queue, r, side);
      SelectOne(s.queue[0], r, side);
      CatMoves(Select(OnWire(s.wire), r, side), [], Select(s.queue[1..], r, side), Select(PendingBefore(s), r, side),
               Select(PendingAfter(s), r, side), Select([s.queue[0]], r, side));
    }
  }

  lemma WriteTakenLine(s: State, r: nat, side: bool)
    ensures Line(Next(s, WriteTaken), r, side) == Line(s, r, side)
  {
    hide Select, OnWire, Cat;
    if s.taken.Some? {
      var sub := s.taken.value;
      SelectEmpty(r, side);
      OnWireSnoc(s.wire, Unconfirmed(sub));
      SelectSnoc(OnWire(s.wire), sub, r, side);
      SelectOne(sub, r, side);
      var x := Select([sub], r, side);
      assert x + [] == x;
      CatMoves(Select(OnWire(s.wire), r, side), [], Select(s.queue, r, side), Select(PendingBefore(s), r, side),
               Select(PendingAfter(s), r, side), x);
    }
  }

  lemma SelectEmpty(r: nat, side: bool)
    ensures Select([], r, side) == []
  {}

  lemma QueueAfterLine(s: State, r: nat, side: bool)
    requires HeldWell(s)
    ensures LineStep(Line(s, r, side), Line(Next(s, QueueAfter), r, side), |s.submitted|)
    ensures |Line(Next(s, QueueAfter), r, side)| <= |Line(s, r, side)|
  {
    hide Select, OnWire, Cat;
    if s.phase.Queueing? && s.phase.after != [] {
      var sub := s.phase.after[0];
      SelectEmpty(r, side);
      SelectHead(s.phase.after, r, side);
      SelectSnoc(s.queue, sub, r, side);
      assert PendingBefore(s) == [];
      var w, t, q := Select(OnWire(s.wire), r, side), Select(TakenSeq(s), r, side), Select(s.queue, r, side);
      var e := Select(s.phase.after[1..], r, side);
      var x := if sub.req == Some(r) && sub.first == side then [sub.id] else [];
      if !s.closed && |s.queue| < QUEUE_CAPACITY {
        CatMoves(w, t, q, [], e, x);
      } else if x == [] {
        assert [] + e == e;
      } else {
        CatDrops(w, t, q, e, sub.id);
      }
    }
  }

  lemma OtherLine(s: State, a: Action, r: nat, side: bool)
    requires HeldWell(s)
    requires !a.Submit? && !a.WriteBefore? && !a.Take? && !a.WriteTaken? && !a.QueueAfter?
    ensures Line(Next(s, a), r, side) == Line(s, r, side)
  {
    hide Select, OnWire, Cat;
    OnWireSnoc(s.wire, Response(s.req));
    if a.DeferredResponse? { OnWireSnoc(s.wire, Response(a.r)); }
    assert OnWire(s.wire) + [] == OnWire(s.wire);
  }

  lemma StepInOrder(s: State, a: Action, r: nat, side: bool)
    requires Inv(s) && InOrder(s, r, side)
    ensures InOrder(Next(s, a), r, side)
  {
    var s' := Next(s, a);
    SubmittedGrows(s, a);
    assert HeldWell(s) && Answers(s);
    hide Inv, HeldWell, Answers, Next, Line, InOrder;
    var l, l' := Line(s, r, side), Line(s', r, side);
    match a {
      case Submit(first) => SubmitLine(s, first, r, side);
      case WriteBefore => WriteBeforeLine(s, r, side);
      case Take => TakeLine(s, r, side);
      case WriteTaken => WriteTakenLine(s, r, side);
      case QueueAfter => QueueAfterLine(s, r, side);
      case _ => OtherLine(s, a, r, side);
    }
    assert !a.Submit? ==> |l'| <= |l|;
    LineStepKeeps(s, s', r, side);
  }

  lemma SubmittedGrows(s: State, a: Action)
    ensures |Next(s, a).submitted| == |s.submitted| + if a.Submit? then 1 else 0
  {}

  lemma {:induction false} RunInOrder(actions: seq<Action>, r: nat, side: bool)
    ensures InOrder(Run(actions), r, side)
    decreases |actions|
  {
    if actions != [] {
      hide Inv, Next, InOrder;
      var before := actions[..|actions| - 1];
      RunInOrder(before, r, side);
      RunKeeps(before);
      StepInOrder(Run(before), actions[|actions| - 1], r, side);
    }
  }

  // In every run, the PDUs of one request on one side of its response are on
  // the wire in the order they were handed over.
  lemma SubmissionOrder(actions: seq<Action>, i: nat, j: nat)
    ensures
      var w := Run(actions).wire;
      i < j < |w| && w[i].Unconfirmed? && w[j].Unconfirmed?
      && w[i].sub.req.Some? && w[i].sub.req == w[j].sub.req && w[i].sub.first == w[j].sub.first
      ==> w[i].sub.id < w[j].sub.id
  {
    var s := Run(actions);
    var w := s.wire;
    if i < j < |w| && w[i].Unconfirmed? && w[j].Unconfirmed?
       && w[i].sub.req.Some? && w[i].sub.req == w[j].sub.req && w[i].sub.first == w[j].sub.first {
      hide Run;
      var r, side := w[i].sub.req.value, w[i].sub.first;
      RunInOrder(actions, r, side);
      var ids := Select(OnWire(w), r, side);
      PrefixIncreasing(ids, Line(s, r, side));
      WirePositions(w, i, j, r, side);
    }
  }

  lemma PrefixIncreasing(a: seq<nat>, b: seq<nat>)
    requires a <= b && Increasing(b)
    ensures Increasing(a)
  {}

  // Two PDUs on the wire are two entries of their line.
  lemma {:induction false} WirePositions(w: seq<Item>, i: nat, j: nat, r: nat, side: bool)
    requires i < j < |w| && w[i].Unconfirmed? && w[j].Unconfirmed?
    requires w[i].sub.req == Some(r) == w[j].sub.req && w[i].sub.first == side == w[j].sub.first
    requires Increasing(Select(OnWire(w), r, side))
    ensures w[i].sub.id < w[j].sub.id
    decreases |w|
  {
    hide Select, OnWire, Increasing;
    var head: seq<Sub> := if w[0].Unconfirmed? then [w[0].sub] else [];
    OnWireHead(w);
    SelectConcat(head, OnWire(w[1..]), r, side);
    var more := Select(OnWire(w[1..]), r, side);
    if i == 0 {
      SelectOne(w[0].sub, r, side);
      WireMember(w[1..], j - 1, r, side);
      HeadSmallest(w[0].sub.id, more, w[j].sub.id);
    } else {
      SuffixIncreasing(Select(head, r, side), more);
      WirePositions(w[1..], i - 1, j - 1, r, side);
    }
  }

  lemma HeadSmallest(a: nat, more: seq<nat>, x: nat)
    requires Increasing([a] + more) && x in more
    ensures a < x
  {
    var k :| 0 <= k < |more| && more[k] == x;
    assert ([a] + more)[0] == a && ([a] + more)[k + 1] == x;
  }

  lemma SuffixIncreasing(a: seq<nat>, b: seq<nat>)
    requires Increasing(a + b)
    ensures Increasing(b)
  {
    forall i, j | 0 <= i < j < |b| ensures b[i] < b[j] {
      assert (a + b)[|a| + i] == b[i] && (a + b)[|a| + j] == b[j];
    }
  }

  lemma {:induction false} WireMember(w: seq<Item>, j: nat, r: nat, side: bool)
    requires j < |w| && w[j].Unconfirmed? && w[j].sub.req == Some(r) && w[j].sub.first == side
    ensures w[j].sub.id in Select(OnWire(w), r, side)
    decreases |w|
  {
    var head: seq<Sub> := if w[0].Unconfirmed? then [w[0].sub] else [];
    SelectConcat(head, OnWire(w[1..]), r, side);
    if j == 0 {
      SelectOne(w[0].sub, r, side);
    } else {
      WireMember(w[1..], j - 1, r, side);
    }
  }

  // PDUs handed over outside any request

  predicate Outside(x: Item) { x.Unconfirmed? && x.sub.req.None? }

  function Items(subs: seq<Sub>): (items: seq<Item>)
    ensures |items| == |subs| && forall i | 0 <= i < |subs| :: items[i] == Unconfirmed(subs[i])
  {
    seq(|subs|, i requires 0 <= i < |subs| => Unconfirmed(subs[i]))
  }

  // What is on the wire, and what the queue is about to put there.
  function Flow(s: State): seq<Item> { s.wire + Items(TakenSeq(s)) + Items(s.queue) }

  ghost predicate Ordered(xs: seq<Item>, bound: nat)
  {
    && (forall i, j | 0 <= i < j < |xs| && Outside(xs[i]) && Outside(xs[j]) :: xs[i].sub.id < xs[j].sub.id)
    && (forall i | 0 <= i < |xs| && Outside(xs[i]) :: xs[i].sub.id < bound)
  }

  lemma OrderedInsert(a: seq<Item>, x: Item, b: seq<Item>, bound: nat)
    requires Ordered(a + b, bound) && !Outside(x)
    ensures Ordered(a + [x] + b, bound)
  {
    var without, xs := a + b, a + [x] + b;
    forall i, j | 0 <= i < j < |xs| && Outside(xs[i]) && Outside(xs[j])
      ensures xs[i].sub.id < xs[j].sub.id
    {
      var i0, j0 := if i < |a| then i else i - 1, if j < |a| then j else j - 1;
      assert without[i0] == xs[i] && without[j0] == xs[j];
    }
    forall i | 0 <= i < |xs| && Outside(xs[i])
      ensures xs[i].sub.id < bound
    {
      assert without[if i < |a| then i else i - 1] == xs[i];
    }
  }

  lemma OrderedAppend(xs: seq<Item>, x: Item, bound: nat)
    requires Ordered(xs, bound) && (Outside(x) ==> x.sub.id == bound)
    ensures Ordered(xs + [x], bound + 1) && Ordered(xs, bound + 1)
  {}

  lemma ItemsSnoc(subs: seq<Sub>, sub: Sub)
    ensures Items(subs + [sub]) == Items(subs) + [Unconfirmed(sub)]
  {}

  // One PDU or response more on the wire, which no one handed over outside.
  lemma WrittenInside(s: State, t: State, x: Item)
    requires Ordered(Flow(s), |s.submitted|) && !Outside(x)
    requires t.wire == s.wire + [x] && t.taken == s.taken && t.queue == s.queue && t.submitted == s.submitted
    ensures Ordered(Flow(t), |t.submitted|)
  {
    hide Ordered;
    var rest := Items(TakenSeq(s)) + Items(s.queue);
    assert Flow(s) == s.wire + rest && Flow(t) == s.wire + [x] + rest;
    OrderedInsert(s.wire, x, rest, |s.submitted|);
  }

  // One PDU put on the queue, or dropped.
  lemma Enqueued(s: State, sub: Sub, t: State)
    requires Ordered(Flow(s), |s.submitted|) && t == Enqueue(s, sub) && sub.req.Some?
    ensures Ordered(Flow(t), |t.submitted|)
  {
    hide Ordered;
    if t != s {
      ItemsSnoc(s.queue, sub);
      assert Flow(t) == Flow(s) + [Unconfirmed(sub)] + [];
      assert Flow(s) + [] == Flow(s);
      OrderedInsert(Flow(s), Unconfirmed(sub), [], |s.submitted|);
    }
  }

  lemma SubmitOrdered(s: State, first: bool)
    requires Ordered(Flow(s), |s.submitted|)
    ensures Ordered(Flow(Next(s, Submit(first))), |Next(s, Submit(first)).submitted|)
  {
    hide Ordered;
    var t := Next(s, Submit(first));
    var sub := t.submitted[|s.submitted|];
    OrderedAppend(Flow(s), Unconfirmed(sub), |s.submitted|);
    ItemsSnoc(s.queue, sub);
    if t.queue != s.queue {
      assert Flow(t) == Flow(s) + [Unconfirmed(sub)];
    } else {
      assert Flow(t) == Flow(s);
    }
  }

  lemma PumpOrdered(s: State, a: Action)
    requires a.Take? || a.WriteTaken?
    ensures Flow(Next(s, a)) == Flow(s)
  {
    hide Items;
    if a.Take? && s.taken.None? && s.queue != [] {
      var x := Unconfirmed(s.queue[0]);
      ItemsHead(s.queue);
      ItemsOne(s.queue[0]);
      assert s.wire + [x] + Items(s.queue[1..]) == s.wire + [] + ([x] + Items(s.queue[1..]));
    } else if a.WriteTaken? && s.taken.Some? {
      var x := Unconfirmed(s.taken.value);
      ItemsOne(s.taken.value);
      assert (s.wire + [x]) + [] + Items(s.queue) == s.wire + [x] + Items(s.queue);
    }
  }

  lemma ItemsHead(subs: seq<Sub>)
    requires subs != []
    ensures Items(subs) == [Unconfirmed(subs[0])] + Items(subs[1..])
  {}

  lemma ItemsOne(sub: Sub)
    ensures Items([sub]) == [Unconfirmed(sub)] && Items([]) == []
  {}

  lemma StepOrdered(s: State, a: Action)
    requires Inv(s) && Ordered(Flow(s), |s.submitted|)
    ensures Ordered(Flow(Next(s, a)), |Next(s, a).submitted|)
  {
    HeldInside(s);
    hide Ordered, Flow, Inv;
    match a
    case Submit(first) => SubmitOrdered(s, first);
    case Take => PumpOrdered(s, a);
    case WriteTaken => PumpOrdered(s, a);
    case WriteBefore =>
      if s.phase.Flushing? && s.phase.before != [] {
        WrittenInside(s, Next(s, a), Unconfirmed(s.phase.before[0]));
      }
    case WriteResponse =>
      if s.phase.Flushing? && s.phase.before == [] {
        WrittenInside(s, Next(s, a), Response(s.req));
      }
    case DeferredResponse(r) =>
      if r in s.running {
        WrittenInside(s, Next(s, a), Response(r));
      }
    case QueueAfter =>
      if s.phase.Queueing? && s.phase.after != [] {
        var u := s.(phase := Queueing(s.phase.after[1..]));
        SameFlow(s, u);
        Enqueued(u, s.phase.after[0], Next(s, a));
      }
    case _ => SameFlow(s, Next(s, a));
  }

  lemma SameFlow(s: State, t: State)
    requires t.wire == s.wire && t.taken == s.taken && t.queue == s.queue
    ensures Flow(t) == Flow(s)
  {}

  lemma HeldInside(s: State)
    requires Inv(s)
    ensures s.phase.Flushing? && s.phase.before != [] ==> s.phase.before[0].req.Some?
    ensures s.phase.Queueing? && s.phase.after != [] ==> s.phase.after[0].req.Some?
  {
    hide Answers, WireOrder, FirstsKept;
    if s.phase.Flushing? && s.phase.before != [] {
      assert s.phase.before[0] in PendingBefore(s);
    }
    if s.phase.Queueing? && s.phase.after != [] {
      assert s.phase.after[0] in PendingAfter(s);
    }
  }

  lemma {:induction false} RunOrdered(actions: seq<Action>)
    ensures Ordered(Flow(Run(actions)), |Run(actions).submitted|)
    decreases |actions|
  {
    hide Inv, Next, Ordered, Flow;
    if actions == [] {
      NothingFlows();
    } else {
      var before := actions[..|actions| - 1];
      RunOrdered(before);
      RunKeeps(before);
      StepOrdered(Run(before), actions[|actions| - 1]);
    }
  }

  lemma NothingFlows()
    ensures Ordered(Flow(INITIAL), |INITIAL.submitted|)
  {}

  // In every run, the PDUs handed over outside any request, whichever way, are
  // on the wire in the order they were handed over.
  lemma OutsideOrder(actions: seq<Action>, i: nat, j: nat)
    ensures
      var w := Run(actions).wire;
      i < j < |w| && Outside(w[i]) && Outside(w[j]) ==> w[i].sub.id < w[j].sub.id
  {
    var s := Run(actions);
    RunOrdered(actions);
    if i < j < |s.wire| {
      assert Flow(s)[i] == s.wire[i] && Flow(s)[j] == s.wire[j];
    }
  }

  // The association as it runs

  // Conservation

  // The queue takes no more.
  predicate Full(s: State) { s.closed || |s.queue| >= 512 }

  // What a step drops: a PDU that is to go onto a queue that takes no more.
  function DroppedBy(s: State, a: Action): seq<Sub>
  {
    if !Full(s) then []
    else if a.Submit? && !s.inReq then [Sub(|s.submitted|, None, a.first)]
    else if a.QueueAfter? && s.phase.Queueing? && s.phase.after != [] then [s.phase.after[0]]
    else []
  }

  function Dropped(actions: seq<Action>): seq<Sub>
    decreases |actions|
  {
    if actions == [] then []
    else
      var before := actions[..|actions| - 1];
      Dropped(before) + DroppedBy(Run(before), actions[|actions| - 1])
  }

  // How often x is among subs.
  function Times(subs: seq<Sub>, x: Sub): nat
  {
    if subs == [] then 0 else Times(subs[..|subs| - 1], x) + One(subs[|subs| - 1], x)
  }

  function One(y: Sub, x: Sub): nat { if y == x then 1 else 0 }

  lemma TimesSnoc(subs: seq<Sub>, y: Sub, x: Sub)
    ensures Times(subs + [y], x) == Times(subs, x) + One(y, x)
  {
    assert (subs + [y])[..|subs|] == subs;
  }

  lemma {:induction false} TimesHead(subs: seq<Sub>, x: Sub)
    requires subs != []
    ensures Times(subs, x) == One(subs[0], x) + Times(subs[1..], x)
    decreases |subs|
  {
    if |subs| > 1 {
      var front := subs[..|subs| - 1];
      TimesHead(front, x);
      assert front[1..] == subs[1..][..|subs| - 2];
    } else {
      assert subs[..0] == [] && subs[1..] == [];
    }
  }

  // How often x has been dropped or is in one of the places it can be: on the wire,
  // in the hands of the writer, on the queue, or held for the request.
  function Found(s: State, dropped: seq<Sub>, x: Sub): nat
  {
    Times(dropped, x) + Times(OnWire(s.wire), x) + (if s.taken.Some? then One(s.taken.value, x) else 0)
    + Times(s.queue, x) + Times(PendingBefore(s), x) + Times(PendingAfter(s), x)
  }

  lemma WrittenTimes(wire: seq<Item>, item: Item, x: Sub)
    ensures
      Times(OnWire(wire + [item]), x) == Times(OnWire(wire), x) + if item.Unconfirmed? then One(item.sub, x) else 0
  {
    hide OnWire, Times;
    OnWireSnoc(wire, item);
    if item.Unconfirmed? {
      TimesSnoc(OnWire(wire), item.sub, x);
    } else {
      assert OnWire(wire) + [] == OnWire(wire);
    }
  }

  lemma SubmitConserves(s: State, first: bool, dropped: seq<Sub>, x: Sub)
    requires HeldWell(s)
    ensures
      var t := Next(s, Submit(first));
      Found(t, dropped + DroppedBy(s, Submit(first)), x) - Times(t.submitted, x) ==
      Found(s, dropped, x) - Times(s.submitted, x)
  {
    hide OnWire, Times, Answered;
    var sub := Sub(|s.submitted|, if s.inReq then Some(s.req) else None, first);
    TimesSnoc(s.submitted, sub, x);
    TimesSnoc(s.queue, sub, x);
    TimesSnoc(s.before, sub, x);
    TimesSnoc(s.after, sub, x);
    TimesSnoc(dropped, sub, x);
    assert dropped + [] == dropped;
  }

  lemma FlushConserves(s: State, a: Action, dropped: seq<Sub>, x: Sub)
    requires HeldWell(s) && (a.WriteBefore? || a.WriteResponse? || a.Defer?)
    ensures Found(Next(s, a), dropped + DroppedBy(s, a), x) == Found(s, dropped, x)
  {
    hide OnWire, Times, Answered;
    assert dropped + [] == dropped;
    if s.phase.Flushing? {
      if s.phase.before != [] {
        TimesHead(s.phase.before, x);
        WrittenTimes(s.wire, Unconfirmed(s.phase.before[0]), x);
      } else {
        WrittenTimes(s.wire, Response(s.req), x);
      }
    }
  }

  lemma PumpConserves(s: State, a: Action, dropped: seq<Sub>, x: Sub)
    requires a.Take? || a.WriteTaken? || a.DeferredResponse?
    ensures Found(Next(s, a), dropped + DroppedBy(s, a), x) == Found(s, dropped, x)
  {
    hide OnWire, Times;
    assert dropped + [] == dropped;
    if a.Take? && s.queue != [] {
      TimesHead(s.queue, x);
    } else if a.WriteTaken? && s.taken.Some? {
      WrittenTimes(s.wire, Unconfirmed(s.taken.value), x);
    } else if a.DeferredResponse? {
      WrittenTimes(s.wire, Response(a.r), x);
    }
  }

  lemma QueueConserves(s: State, dropped: seq<Sub>, x: Sub)
    requires HeldWell(s)
    ensures Found(Next(s, QueueAfter), dropped + DroppedBy(s, QueueAfter), x) == Found(s, dropped, x)
  {
    hide OnWire, Times, Answered;
    assert dropped + [] == dropped;
    if s.phase.Queueing? && s.phase.after != [] {
      TimesHead(s.phase.after, x);
      TimesSnoc(s.queue, s.phase.after[0], x);
      TimesSnoc(dropped, s.phase.after[0], x);
    }
  }

  lemma PhaseConserves(s: State, a: Action, dropped: seq<Sub>, x: Sub)
    requires HeldWell(s) && (a.Begin? || a.End? || a.Finish? || a.CloseQueue?)
    ensures Found(Next(s, a), dropped + DroppedBy(s, a), x) == Found(s, dropped, x)
  {
    hide OnWire, Times, Answered;
    assert dropped + [] == dropped;
  }

  lemma StepConserves(s: State, a: Action, dropped: seq<Sub>, x: Sub)
    requires HeldWell(s)
    ensures
      Found(Next(s, a), dropped + DroppedBy(s, a), x) - Times(Next(s, a).submitted, x) ==
      Found(s, dropped, x) - Times(s.submitted, x)
  {
    hide HeldWell, Found, Next, DroppedBy, Times;
    SubmittedIs(s, a);
    match a
    case Submit(first) => SubmitConserves(s, first, dropped, x);
    case WriteBefore => FlushConserves(s, a, dropped, x);
    case WriteResponse => FlushConserves(s, a, dropped, x);
    case Defer => FlushConserves(s, a, dropped, x);
    case Take => PumpConserves(s, a, dropped, x);
    case WriteTaken => PumpConserves(s, a, dropped, x);
    case DeferredResponse(_) => PumpConserves(s, a, dropped, x);
    case QueueAfter => QueueConserves(s, dropped, x);
    case _ => PhaseConserves(s, a, dropped, x);
  }

  // In every run, every PDU handed over is in exactly one place, or was dropped, once,
  // at a queue of 512 or one that is closed; none is lost, none comes twice, and
  // none comes that was not handed over.
  lemma {:induction false} NothingLost(actions: seq<Action>, x: Sub)
    ensures Found(Run(actions), Dropped(actions), x) == if x in Run(actions).submitted then 1 else 0
    decreases |actions|
  {
    hide Run, Found, Times, Dropped;
    FoundOnce(actions, x);
    Numbered(actions);
    AtMostOnce(Run(actions).submitted, x);
  }

  lemma {:induction false} FoundOnce(actions: seq<Action>, x: Sub)
    ensures Found(Run(actions), Dropped(actions), x) == Times(Run(actions).submitted, x)
    decreases |actions|
  {
    if actions != [] {
      hide Next, Found, Times, DroppedBy, Inv;
      var before := actions[..|actions| - 1];
      FoundOnce(before, x);
      RunKeeps(before);
      InvHolds(Run(before));
      StepConserves(Run(before), actions[|actions| - 1], Dropped(before), x);
    }
  }

  lemma InvHolds(s: State)
    requires Inv(s)
    ensures HeldWell(s)
  {}

  // The PDUs handed over are numbered in order.
  lemma {:induction false} Numbered(actions: seq<Action>)
    ensures forall i | 0 <= i < |Run(actions).submitted| :: Run(actions).submitted[i].id == i
    decreases |actions|
  {
    if actions != [] {
      hide Next;
      var before := actions[..|actions| - 1];
      Numbered(before);
      SubmittedIs(Run(before), actions[|actions| - 1]);
    }
  }

  lemma SubmittedIs(s: State, a: Action)
    ensures
      Next(s, a).submitted ==
      if a.Submit? then s.submitted + [Sub(|s.submitted|, if s.inReq then Some(s.req) else None, a.first)]
      else s.submitted
  {}

  lemma {:induction false} AtMostOnce(subs: seq<Sub>, x: Sub)
    requires forall i | 0 <= i < |subs| :: subs[i].id == i
    ensures Times(subs, x) == if x in subs then 1 else 0
    decreases |subs|
  {
    if subs != [] {
      var front, y := subs[..|subs| - 1], subs[|subs| - 1];
      AtMostOnce(front, x);
      assert subs == front + [y];
      if x in front {
        assert x.id < |front|;
      }
    }
  }

  // Responses

  // How often the response of request r is on the wire.
  function Responses(wire: seq<Item>, r: nat): nat
  {
    if wire == [] then 0 else Responses(wire[..|wire| - 1], r) + if wire[|wire| - 1] == Response(r) then 1 else 0
  }

  lemma ResponsesSnoc(wire: seq<Item>, item: Item, r: nat)
    ensures Responses(wire + [item], r) == Responses(wire, r) + if item == Response(r) then 1 else 0
  {
    assert (wire + [item])[..|wire|] == wire;
  }

  // Request r has come to its response: it has one on the wire, or deferred it.
  predicate Reached(s: State, r: nat)
  {
    1 <= r && Past(s, r)
  }

  ghost predicate AnsweredAlike(s: State, r: nat)
  {
    && Responses(s.wire, r) == (if Reached(s, r) && r !in s.running then 1 else 0)
    && (r in s.running ==> Reached(s, r))
    && (s.req == 0 ==> s.phase.Idle?)
  }

  lemma StepAnswers(s: State, a: Action, r: nat)
    requires AnsweredAlike(s, r)
    ensures AnsweredAlike(Next(s, a), r)
  {
    hide Responses;
    match a
    case WriteBefore =>
      if s.phase.Flushing? && s.phase.before != [] {
        ResponsesSnoc(s.wire, Unconfirmed(s.phase.before[0]), r);
      }
    case WriteResponse => ResponsesSnoc(s.wire, Response(s.req), r);
    case DeferredResponse(q) => ResponsesSnoc(s.wire, Response(q), r);
    case WriteTaken =>
      if s.taken.Some? {
        ResponsesSnoc(s.wire, Unconfirmed(s.taken.value), r);
      }
    case _ =>
  }

  // In every run, every request that has come to its response has exactly one on
  // the wire, or none as long as the response it deferred is still to come.
  lemma {:induction false} AnsweredOnce(actions: seq<Action>, r: nat)
    ensures
      var s := Run(actions);
      Responses(s.wire, r) == if Reached(s, r) && r !in s.running then 1 else 0
    ensures AnsweredAlike(Run(actions), r)
    decreases |actions|
  {
    if actions != [] {
      hide Next;
      AnsweredOnce(actions[..|actions| - 1], r);
      StepAnswers(Run(actions[..|actions| - 1]), actions[|actions| - 1], r);
    }
  }

  function Steps(s: State, actions: seq<Action>): State
    decreases |actions|
  {
    if actions == [] then s else Next(Steps(s, actions[..|actions| - 1]), actions[|actions| - 1])
  }

  // What is done from the state of a run is a longer run.
  lemma {:induction false} StepsExtendRun(before: seq<Action>, after: seq<Action>)
    ensures Steps(Run(before), after) == Run(before + after)
    decreases |after|
  {
    hide Next;
    if after == [] {
      assert before + after == before;
    } else {
      assert (before + after)[..|before + after| - 1] == before + after[..|after| - 1];
      StepsExtendRun(before, after[..|after| - 1]);
    }
  }

  lemma StepsMore(s: State, actions: seq<Action>, a: Action)
    ensures Steps(s, actions + [a]) == Next(Steps(s, actions), a)
  {
    hide Next;
    assert (actions + [a])[..|actions|] == actions;
  }

  // The steps that end a request nothing interrupts: what was held to go
  // first, the response, and the rest onto the queue.
  function Answering(s: State): seq<Action>
  {
    [End] + Writes(|s.before|) + [WriteResponse] + Queues(|s.after|) + [Finish]
  }

  function Writes(n: nat): seq<Action> { seq(n, _ => WriteBefore) }

  function Queues(n: nat): seq<Action> { seq(n, _ => QueueAfter) }

  lemma NoSteps(s: State)
    ensures Steps(s, []) == s && [] + [End] == [End] + Writes(0)
  {}

  class Conn {
    var inReq: bool
    var before: seq<Sub>
    var after: seq<Sub>
    var unconf: seq<Sub>
    var unconfClosed: bool
    // Where the two goroutines are, and what has come of it all.
    var req: nat
    ghost var phase: Phase
    ghost var deferred: set<nat>
    ghost var running: set<nat>
    ghost var taken: Option<Sub>
    ghost var wire: seq<Item>
    var submitted: seq<Sub>

    ghost function Abstract(): State
      reads this
    {
      State(inReq, before, after, phase, req, deferred, running, unconf, unconfClosed, taken, wire, submitted)
    }

    constructor ()
      ensures Abstract() == INITIAL
    {
      inReq, unconfClosed, before, after, unconf, submitted, req := false, false, [], [], [], [], 0;
      phase, deferred, running, taken, wire := Idle, {}, {}, None, [];
    }

    method BeginRequest()
      requires phase.Idle?
      modifies this
      ensures Abstract() == Next(old(Abstract()), Begin)
    {
      inReq, req := true, req + 1;
      phase := Handling;
    }

    method EndRequest() returns (b: seq<Sub>, a: seq<Sub>)
      requires phase.Handling?
      modifies this
      ensures Abstract() == Next(old(Abstract()), End)
      ensures b == old(before) && a == old(after) && phase == Flushing(b, a)
    {
      inReq := false;
      b, a := before, after;
      before, after := [], [];
      phase := Flushing(b, a);
    }

    method Hold(sub: Sub) returns (held: bool)
      modifies `before, `after
      ensures held == inReq
      ensures before == if held && sub.first then old(before) + [sub] else old(before)
      ensures after == if held && !sub.first then old(after) + [sub] else old(after)
    {
      if !inReq {
        return false;
      }
      if sub.first {
        before := before + [sub];
      } else {
        after := after + [sub];
      }
      return true;
    }

    method EnqueueOne(sub: Sub) returns (ok: bool)
      modifies `unconf
      ensures ok <==> !unconfClosed && |old(unconf)| < QUEUE_CAPACITY
      ensures Abstract() == Enqueue(old(Abstract()), sub)
    {
      if unconfClosed || |unconf| >= QUEUE_CAPACITY {
        return false;
      }
      unconf := unconf + [sub];
      return true;
    }

    // SendUnconfirmed and SendUnconfirmedFirst, which differ in first.
    method SendUnconfirmed(first: bool)
      modifies this
      ensures Abstract() == Next(old(Abstract()), Submit(first))
    {
      var sub := Sub(|submitted|, if inReq then Some(req) else None, first);
      submitted := submitted + [sub];
      var held := Hold(sub);
      if !held {
        var ok := EnqueueOne(sub);
      }
    }

    method WriteHeld(pdu: Sub)
      requires phase.Flushing? && phase.before != [] && phase.before[0] == pdu
      modifies this
      ensures Abstract() == Next(old(Abstract()), WriteBefore)
      ensures phase == Flushing(old(phase).before[1..], old(phase).after)
    {
      wire := wire + [Unconfirmed(pdu)];
      phase := Flushing(phase.before[1..], phase.after);
    }

    method Respond()
      requires phase.Flushing? && phase.before == []
      modifies this
      ensures Abstract() == Next(old(Abstract()), WriteResponse)
      ensures phase == Queueing(old(phase).after)
    {
      wire := wire + [Response(req)];
      phase := Queueing(phase.after);
    }

    method QueueHeld(pdu: Sub)
      requires phase.Queueing? && phase.after != [] && phase.after[0] == pdu
      modifies this
      ensures Abstract() == Next(old(Abstract()), QueueAfter)
      ensures phase == Queueing(old(phase).after[1..])
    {
      phase := Queueing(phase.after[1..]);
      var ok := EnqueueOne(pdu);
    }

    method Answer()
      requires phase.Handling?
      modifies this
      ensures Abstract() == Steps(old(Abstract()), Answering(old(Abstract())))
    {
      hide Next, Steps;
      ghost var s := Abstract();
      NoSteps(s);
      StepsMore(s, [], End);
      var b, a := EndRequest();
      var i := 0;
      while i < |b|
        invariant i <= |b| && phase == Flushing(b[i..], a)
        invariant Abstract() == Steps(s, [End] + Writes(i))
      {
        StepsMore(s, [End] + Writes(i), WriteBefore);
        WriteHeld(b[i]);
        assert b[i..][1..] == b[i + 1..];
        assert [End] + Writes(i) + [WriteBefore] == [End] + Writes(i + 1);
        i := i + 1;
      }
      StepsMore(s, [End] + Writes(i), WriteResponse);
      Respond();
      ghost var sent := [End] + Writes(|b|) + [WriteResponse];
      assert sent + Queues(0) == sent;
      i := 0;
      while i < |a|
        invariant i <= |a| && phase == Queueing(a[i..])
        invariant Abstract() == Steps(s, sent + Queues(i))
      {
        StepsMore(s, sent + Queues(i), QueueAfter);
        QueueHeld(a[i]);
        assert a[i..][1..] == a[i + 1..];
        assert sent + Queues(i) + [QueueAfter] == sent + Queues(i + 1);
        i := i + 1;
      }
      StepsMore(s, sent + Queues(|a|), Finish);
      EndServing();
    }

    ghost method EndServing()
      requires phase == Queueing([])
      modifies this
      ensures Abstract() == Next(old(Abstract()), Finish)
    {
      phase := Idle;
    }

    // One PDU of the queue, by the goroutine that writes from it.
    method Pump() returns (more: bool)
      requires taken.None?
      modifies this
      ensures more == (old(unconf) != [])
      ensures Abstract() == Next(Next(old(Abstract()), Take), WriteTaken)
    {
      more := |unconf| > 0;
      if more {
        ghost var pdu := unconf[0];
        unconf := unconf[1..];
        wire := wire + [Unconfirmed(pdu)];
      }
    }
  }
}
