// The GOOSE publisher (goose/publisher.go): Publish, Refresh and Close under
// one lock, and the retransmission loops they start and supersede.
//
// Each critical section and each wake-up of a loop is one step; a loop is a
// goroutine, so its steps may come at any time and late.

module GoosePublisher {
  import opened Options
  import opened Octets
  import opened MmsData
  import opened GooseMessage

  const MAX_PAYLOAD := 1500

  // Intervals are in nanoseconds.
  datatype Config = Config(
    goCbRef: Bytes,
    datSet: Bytes,
    goID: Bytes,
    confRev: uint32,
    appID: uint16,
    quality: Quality,
    test: bool,
    ndsCom: bool,
    retrans: seq<nat>)

  // The wait after transmission n of a state.
  function Wait(cfg: Config, n: nat): nat
    requires cfg.retrans != []
  {
    cfg.retrans[if n < |cfg.retrans| then n else |cfg.retrans| - 1]
  }

  // timeAllowedToLive of transmission n: twice the wait, in milliseconds and
  // 32 bits, and at least one.
  function Tatl(cfg: Config, n: nat): uint32
    requires cfg.retrans != []
  {
    var ms := 2 * Wait(cfg, n) / 1_000_000;
    (if ms < 1 then 1 else ms) % 0x1_0000_0000
  }

  // For every wait whose double is below 2^32 ms, a frame stays valid until the
  // next one, and for twice the wait to the millisecond.
  lemma TatlCoversWait(cfg: Config, n: nat)
    requires cfg.retrans != []
    requires 2 * Wait(cfg, n) < 0x1_0000_0000 * 1_000_000
    ensures Tatl(cfg, n) as int * 1_000_000 >= Wait(cfg, n)
    ensures
      var d := cfg.retrans[if n < |cfg.retrans| then n else |cfg.retrans| - 1];
      && 2 * d < (Tatl(cfg, n) as int + 1) * 1_000_000
      && (d >= 500_000 ==> Tatl(cfg, n) as int * 1_000_000 <= 2 * d)
      && (d < 500_000 ==> Tatl(cfg, n) == 1)
  {}

  function NextSt(n: uint32): uint32 { if n == 0xffff_ffff then 1 else n + 1 }
  function NextSq(n: uint32): uint32 { if n == 0xffff_ffff then 1 else n + 1 }

  datatype Phase = Waiting | Woken | Done

  // A loop's own variables: its copy of the message and its turn.
  datatype Loop = Loop(msg: Message, turn: nat, phase: Phase)

  datatype Kind = Published | Refreshed | Repeated

  // An attempted send: the loop generation it belongs to, and its number
  // within that generation.
  datatype Frame = Frame(msg: Message, kind: Kind, gen: nat, turn: nat)

  datatype PubState = PubState(
    stNum: uint32,
    sqNum: uint32,
    test: bool,
    ndsCom: bool,
    msg: Option<Message>,
    stop: Option<nat>,
    closed: bool,
    stopped: set<nat>,
    loops: seq<Loop>,
    sent: seq<Frame>)

  function Initial(cfg: Config): PubState
  {
    PubState(0, 0, cfg.test, cfg.ndsCom, None, None, false, {}, [], [])
  }

  datatype Action =
    | Publish(values: seq<Value>, now: ValidTime)
    | Refresh(values: seq<Value>, now: ValidTime)
    | SetTest(on: bool)
    | SetNdsCom(on: bool)
    | Close
    | Wake(id: nat)
    | Leave(id: nat)
    | Fire(id: nat, sendOk: bool)

  function NewMessage(cfg: Config, s: PubState, values: seq<Value>, stNum: uint32, t: ValidTime): Message
    requires cfg.retrans != []
  {
    Message(cfg.goCbRef, Tatl(cfg, 0), cfg.datSet, cfg.goID, t, cfg.quality, stNum, 0, s.test, cfg.confRev, s.ndsCom,
            |values| % 0x1_0000_0000, values, cfg.appID)
  }

  predicate Fits(m: Message)
  {
    |Marshal(Widest(m))| <= MAX_PAYLOAD
  }

  // The closed channels once the current one is closed too.
  function Stopping(s: PubState): set<nat>
  {
    if s.stop.Some? then s.stopped + {s.stop.value} else s.stopped
  }

  // publishLocked
  function Announce(cfg: Config, s: PubState, values: seq<Value>, stNum: uint32, t: ValidTime, kind: Kind): PubState
    requires cfg.retrans != []
  {
    var m := NewMessage(cfg, s, values, stNum, t);
    if Fits(m) then Started(s, m, stNum, kind) else s
  }

  function Started(s: PubState, m: Message, stNum: uint32, kind: Kind): PubState
  {
    var id := |s.loops|;
    s.(msg := Some(m), stNum := stNum, sqNum := 0,
       stopped := Stopping(s),
       stop := Some(id),
       loops := s.loops + [Loop(m, 0, Waiting)],
       sent := s.sent + [Frame(m, kind, id, 0)])
  }

  function Next(cfg: Config, s: PubState, a: Action): (s': PubState)
    requires cfg.retrans != []
  {
    match a
    case Publish(values, now) =>
      if s.closed then s else Announce(cfg, s, values, NextSt(s.stNum), now, Published)
    case Refresh(values, now) =>
      if s.closed then s
      else
        var t := if s.msg.Some? then s.msg.value.t else now;
        Announce(cfg, s, values, if s.stNum == 0 then 1 else s.stNum, t, if s.stNum == 0 then Published else Refreshed)
    case SetTest(on) => s.(test := on)
    case SetNdsCom(on) => s.(ndsCom := on)
    case Close =>
      if s.closed then s
      else s.(closed := true, stopped := Stopping(s), stop := None)
    case Wake(id) =>
      // The timer of a loop's turn, which may win over a closed stop channel.
      if id >= |s.loops| || !s.loops[id].phase.Waiting? then s
      else
        var l := s.loops[id];
        var m := Retransmission(l.msg, NextSq(l.msg.sqNum), Tatl(cfg, l.turn + 1));
        s.(loops := s.loops[id := Loop(m, l.turn, Woken)])
    case Leave(id) =>
      if id >= |s.loops| || !s.loops[id].phase.Waiting? || id !in s.stopped then s
      else s.(loops := s.loops[id := s.loops[id].(phase := Done)])
    case Fire(id, sendOk) =>
      if id >= |s.loops| || !s.loops[id].phase.Woken? then s
      else
        var l := s.loops[id];
        if id in s.stopped then s.(loops := s.loops[id := l.(phase := Done)])
        else
          s.(sqNum := l.msg.sqNum,
             loops := s.loops[id := Loop(l.msg, l.turn + 1, if sendOk then Waiting else Done)],
             sent := s.sent + [Frame(l.msg, Repeated, id, l.turn + 1)])
  }

  function Run(cfg: Config, actions: seq<Action>): (s: PubState)
    requires cfg.retrans != []
    decreases |actions|
  {
    if actions == [] then Initial(cfg) else Next(cfg, Run(cfg, actions[..|actions| - 1]), actions[|actions| - 1])
  }

  // The sequential machine: what one frame may follow another with.

  ghost predicate Starts(cfg: Config, f: Frame)
    requires cfg.retrans != []
  {
    f.kind.Published? && f.gen == 0 && f.turn == 0 && f.msg.stNum == 1 && f.msg.sqNum == 0
    && f.msg.timeAllowedToLive == Tatl(cfg, 0)
  }

  ghost predicate Follows(cfg: Config, f: Frame, g: Frame)
    requires cfg.retrans != []
  {
    match g.kind
    case Published =>
      g.gen == f.gen + 1 && g.turn == 0 && g.msg.sqNum == 0 && g.msg.stNum == NextSt(f.msg.stNum)
      && g.msg.timeAllowedToLive == Tatl(cfg, 0)
    case Refreshed =>
      g.gen == f.gen + 1 && g.turn == 0 && g.msg.sqNum == 0 && g.msg.stNum == f.msg.stNum && g.msg.t == f.msg.t
      && g.msg.timeAllowedToLive == Tatl(cfg, 0)
    case Repeated =>
      g.gen == f.gen && g.turn == f.turn + 1
      && g.msg == Retransmission(f.msg, NextSq(f.msg.sqNum), Tatl(cfg, g.turn))
  }

  ghost predicate Sequential(cfg: Config, fs: seq<Frame>)
    requires cfg.retrans != []
  {
    && (fs != [] ==> Starts(cfg, fs[0]))
    && forall i | 0 < i < |fs| :: Follows(cfg, fs[i - 1], fs[i])
  }

  function Last(fs: seq<Frame>): Frame requires fs != [] { fs[|fs| - 1] }

  // What every reachable state satisfies.
  ghost predicate Inv(cfg: Config, s: PubState)
    requires cfg.retrans != []
  {
    && Sequential(cfg, s.sent)
    && (s.sent == [] <==> s.msg.None?)
    && (s.sent == [] ==> s.stNum == 0 && s.loops == [] && s.stop.None?)
    && (s.sent != [] ==> LastFrame(cfg, s))
    && (s.stop.Some? ==> s.stop.value == |s.loops| - 1 && s.stop.value !in s.stopped && !s.closed)
    && (forall id: nat | id < |s.loops| && s.stop != Some(id) :: id in s.stopped)
    && (forall id | id in s.stopped :: id < |s.loops|)
    && (s.stop.Some? ==> CurrentLoop(cfg, s, s.loops[s.stop.value]))
    && (forall f | f in s.sent :: Fits(f.msg))
  }

  // The counters are those of the last frame sent.
  ghost predicate LastFrame(cfg: Config, s: PubState)
    requires cfg.retrans != [] && s.sent != [] && s.msg.Some?
  {
    var f := Last(s.sent);
    && f.gen == |s.loops| - 1
    && f.msg.stNum == s.stNum != 0
    && f.msg.sqNum == s.sqNum
    && f.msg.t == s.msg.value.t
  }

  // The loop not yet stopped is where the last frame left it, or one ahead.
  ghost predicate CurrentLoop(cfg: Config, s: PubState, l: Loop)
    requires cfg.retrans != []
  {
    && s.sent != []
    && var f := Last(s.sent);
       match l.phase
       case Waiting => l.msg == f.msg && l.turn == f.turn
       case Woken => l.turn == f.turn && l.msg == Retransmission(f.msg, NextSq(f.msg.sqNum), Tatl(cfg, f.turn + 1))
       case Done => true
  }

  lemma SequentialSnoc(cfg: Config, fs: seq<Frame>, g: Frame)
    requires cfg.retrans != [] && Sequential(cfg, fs)
    requires if fs == [] then Starts(cfg, g) else Follows(cfg, Last(fs), g)
    ensures Sequential(cfg, fs + [g])
  {
    forall i | 0 < i < |fs + [g]|
      ensures Follows(cfg, (fs + [g])[i - 1], (fs + [g])[i])
    {
      if i < |fs| { assert Follows(cfg, fs[i - 1], fs[i]); }
    }
  }

  lemma RetransmissionFits(m: Message, sq: uint32, tatl: uint32)
    ensures Fits(Retransmission(m, sq, tatl)) == Fits(m)
  {
    assert Widest(Retransmission(m, sq, tatl)) == Widest(m);
  }

  lemma AnnounceKeeps(cfg: Config, s: PubState, values: seq<Value>, stNum: uint32, t: ValidTime, kind: Kind)
    requires cfg.retrans != [] && Inv(cfg, s) && !s.closed
    requires kind.Published? ==> stNum == NextSt(s.stNum)
    requires kind.Refreshed? ==> s.msg.Some? && stNum == s.stNum && t == s.msg.value.t
    requires !kind.Repeated?
    ensures Inv(cfg, Announce(cfg, s, values, stNum, t, kind))
  {
    hide Fits;
    var m := NewMessage(cfg, s, values, stNum, t);
    if Fits(m) {
      SequentialSnoc(cfg, s.sent, Frame(m, kind, |s.loops|, 0));
    }
  }

  lemma WakeKeeps(cfg: Config, s: PubState, id: nat)
    requires cfg.retrans != [] && Inv(cfg, s)
    ensures Inv(cfg, Next(cfg, s, Wake(id)))
  {
    hide Fits, Sequential;
  }

  lemma FireKeeps(cfg: Config, s: PubState, id: nat, sendOk: bool)
    requires cfg.retrans != [] && Inv(cfg, s)
    ensures Inv(cfg, Next(cfg, s, Fire(id, sendOk)))
  {
    hide Fits, Announce, Tatl;
    if id < |s.loops| && s.loops[id].phase.Woken? && id !in s.stopped {
      var l := s.loops[id];
      assert s.stop == Some(id);
      var f := Last(s.sent);
      RetransmissionFits(f.msg, NextSq(f.msg.sqNum), Tatl(cfg, f.turn + 1));
      SequentialSnoc(cfg, s.sent, Frame(l.msg, Repeated, id, l.turn + 1));
    }
  }

  lemma PublishKeeps(cfg: Config, s: PubState, values: seq<Value>, now: ValidTime)
    requires cfg.retrans != [] && Inv(cfg, s)
    ensures Inv(cfg, Next(cfg, s, Publish(values, now)))
  {
    hide Announce, Inv;
    if !s.closed { AnnounceKeeps(cfg, s, values, NextSt(s.stNum), now, Published); }
  }

  lemma RefreshKeeps(cfg: Config, s: PubState, values: seq<Value>, now: ValidTime)
    requires cfg.retrans != [] && Inv(cfg, s)
    ensures Inv(cfg, Next(cfg, s, Refresh(values, now)))
  {
    hide Announce, Fits, Sequential;
    if !s.closed {
      if s.stNum == 0 {
        AnnounceKeeps(cfg, s, values, 1, now, Published);
      } else {
        AnnounceKeeps(cfg, s, values, s.stNum, s.msg.value.t, Refreshed);
      }
    }
  }

  lemma OtherKeeps(cfg: Config, s: PubState, a: Action)
    requires cfg.retrans != [] && Inv(cfg, s)
    requires a.SetTest? || a.SetNdsCom? || a.Close? || a.Leave?
    ensures Inv(cfg, Next(cfg, s, a))
  {
    hide Fits, Sequential, Announce;
  }

  lemma StepKeeps(cfg: Config, s: PubState, a: Action)
    requires cfg.retrans != [] && Inv(cfg, s)
    ensures Inv(cfg, Next(cfg, s, a))
  {
    hide Inv, Next;
    match a
    case Publish(values, now) => PublishKeeps(cfg, s, values, now);
    case Refresh(values, now) => RefreshKeeps(cfg, s, values, now);
    case Wake(id) => WakeKeeps(cfg, s, id);
    case Fire(id, sendOk) => FireKeeps(cfg, s, id, sendOk);
    case _ => OtherKeeps(cfg, s, a);
  }

  lemma {:induction false} RunKeeps(cfg: Config, actions: seq<Action>)
    requires cfg.retrans != []
    ensures Inv(cfg, Run(cfg, actions))
    decreases |actions|
  {
    hide Inv, Next;
    if actions == [] {
      InitialInv(cfg);
    } else {
      RunKeeps(cfg, actions[..|actions| - 1]);
      StepKeeps(cfg, Run(cfg, actions[..|actions| - 1]), actions[|actions| - 1]);
    }
  }

  lemma InitialInv(cfg: Config)
    requires cfg.retrans != []
    ensures Inv(cfg, Initial(cfg))
  {}

  // For every interleaving, the frames attempted are the trace of the
  // sequential machine, and each of them fits an Ethernet frame.
  lemma AttemptedSendsSequential(cfg: Config, actions: seq<Action>)
    requires cfg.retrans != []
    ensures Sequential(cfg, Run(cfg, actions).sent)
    ensures forall f | f in Run(cfg, actions).sent :: |Marshal(f.msg)| <= 1500
  {
    RunKeeps(cfg, actions);
    forall f | f in Run(cfg, actions).sent
      ensures |Marshal(f.msg)| <= MAX_PAYLOAD
    {
      assert Fits(f.msg);
      WidestFits(f.msg, f.msg.sqNum, f.msg.timeAllowedToLive, MAX_PAYLOAD);
      assert Retransmission(f.msg, f.msg.sqNum, f.msg.timeAllowedToLive) == f.msg;
    }
  }

  // In any such trace stNum is never 0, sqNum is 0 exactly on the first frame
  // of a Publish or Refresh, and no generation sends after its successor.
  lemma {:induction false} TraceFacts(cfg: Config, fs: seq<Frame>, i: nat)
    requires cfg.retrans != [] && Sequential(cfg, fs) && i < |fs|
    ensures fs[i].msg.stNum != 0
    ensures fs[i].msg.sqNum == 0 <==> !fs[i].kind.Repeated?
    ensures forall j | 0 <= j <= i :: fs[j].gen <= fs[i].gen
    decreases i
  {
    if i > 0 {
      TraceFacts(cfg, fs, i - 1);
      assert Follows(cfg, fs[i - 1], fs[i]);
    }
  }

  // Once closed, nothing is sent again.
  lemma {:induction false} NothingAfterClose(cfg: Config, before: seq<Action>, after: seq<Action>)
    requires cfg.retrans != [] && Run(cfg, before).closed
    ensures Run(cfg, before + after).closed && Run(cfg, before + after).sent == Run(cfg, before).sent
    decreases |after|
  {
    hide Inv, Next;
    if after == [] {
      assert before + after == before;
    } else {
      var earlier := after[..|after| - 1];
      var all := before + after;
      assert all[..|all| - 1] == before + earlier;
      NothingAfterClose(cfg, before, earlier);
      RunKeeps(cfg, before + earlier);
      ClosedSilent(cfg, Run(cfg, before + earlier), after[|after| - 1]);
    }
  }

  lemma ClosedSilent(cfg: Config, s: PubState, a: Action)
    requires cfg.retrans != [] && Inv(cfg, s) && s.closed
    ensures Next(cfg, s, a).closed && Next(cfg, s, a).sent == s.sent
  {
    hide Fits, Sequential, Announce;
  }

  // The first frame a Publish or Refresh asks for.
  function Asked(cfg: Config, s: PubState, a: Action): Message
    requires cfg.retrans != [] && (a.Publish? || a.Refresh?)
  {
    if a.Publish? then NewMessage(cfg, s, a.values, NextSt(s.stNum), a.now)
    else
      NewMessage(cfg, s, a.values, if s.stNum == 0 then 1 else s.stNum, if s.msg.Some? then s.msg.value.t else a.now)
  }

  // Some retransmission of the message would not fit a frame.
  ghost predicate Outgrows(m: Message)
  {
    exists sq: uint32, tatl: uint32 :: |Marshal(Retransmission(m, sq, tatl))| > 1500
  }

  lemma RefusedOutgrows(m: Message)
    ensures Fits(m) <==> !Outgrows(m)
  {
    hide Marshal;
    assert Widest(m) == Retransmission(m, 0xffff_ffff, 0xffff_ffff);
    if Fits(m) {
      forall sq: uint32, tatl: uint32
        ensures |Marshal(Retransmission(m, sq, tatl))| <= MAX_PAYLOAD
      {
        WidestFits(m, sq, tatl, MAX_PAYLOAD);
      }
    }
  }

  // In every run, a Publish or Refresh is refused exactly when the publisher
  // is closed or some retransmission of what it asks for would not fit a frame;
  // and a run with the refused request in it goes on, frame by frame and state
  // by state, as the run without it.
  lemma TooLargeChangesNothing(cfg: Config, before: seq<Action>, a: Action, after: seq<Action>)
    requires cfg.retrans != [] && (a.Publish? || a.Refresh?)
    ensures
      var s := Run(cfg, before);
      var refused := Run(cfg, before + [a]).sent == s.sent;
      && (refused <==> s.closed || Outgrows(Asked(cfg, s, a)))
      && (refused ==> Run(cfg, before + [a] + after) == Run(cfg, before + after))
  {
    hide Outgrows, Fits;
    var s := Run(cfg, before);
    assert (before + [a])[..|before|] == before;
    RefusedOutgrows(Asked(cfg, s, a));
    if s.closed || Outgrows(Asked(cfg, s, a)) {
      assert Run(cfg, before + [a]) == s;
      RunsAlike(cfg, before + [a], before, after);
    }
  }

  // What follows depends on the state alone.
  lemma {:induction false} RunsAlike(cfg: Config, xs: seq<Action>, ys: seq<Action>, after: seq<Action>)
    requires cfg.retrans != [] && Run(cfg, xs) == Run(cfg, ys)
    ensures Run(cfg, xs + after) == Run(cfg, ys + after)
    decreases |after|
  {
    hide Next;
    if after == [] {
      assert xs + after == xs && ys + after == ys;
    } else {
      var earlier := after[..|after| - 1];
      RunsAlike(cfg, xs, ys, earlier);
      assert (xs + after)[..|xs + after| - 1] == xs + earlier && (ys + after)[..|ys + after| - 1] == ys + earlier;
    }
  }

  // What the frames of a run carry, read off the actions

  // How many frames had been attempted when the first k actions were done.
  function SentBefore(cfg: Config, actions: seq<Action>, k: nat): nat
    requires cfg.retrans != [] && k <= |actions|
  {
    |Run(cfg, actions[..k]).sent|
  }

  // The Publish or Refresh at k had its first frame sent.
  predicate Accepted(cfg: Config, actions: seq<Action>, k: nat)
    requires cfg.retrans != [] && k < |actions|
  {
    (actions[k].Publish? || actions[k].Refresh?) && SentBefore(cfg, actions, k) < SentBefore(cfg, actions, k + 1)
  }

  // What SetTest and SetNdsCom last set.
  function TestInForce(cfg: Config, actions: seq<Action>): bool
  {
    if actions == [] then cfg.test
    else if actions[|actions| - 1].SetTest? then actions[|actions| - 1].on
    else TestInForce(cfg, actions[..|actions| - 1])
  }

  function NdsComInForce(cfg: Config, actions: seq<Action>): bool
  {
    if actions == [] then cfg.ndsCom
    else if actions[|actions| - 1].SetNdsCom? then actions[|actions| - 1].on
    else NdsComInForce(cfg, actions[..|actions| - 1])
  }

  // m carries what the configuration has and the request at k asked for.
  predicate Carries(cfg: Config, actions: seq<Action>, k: nat, m: Message)
    requires k < |actions| && (actions[k].Publish? || actions[k].Refresh?)
  {
    && m.goCbRef == cfg.goCbRef && m.datSet == cfg.datSet && m.goID == cfg.goID
    && m.confRev == cfg.confRev && m.quality == cfg.quality && m.appID == cfg.appID
    && m.values == actions[k].values && m.numDatSetEntries == |actions[k].values| % 0x1_0000_0000
    && m.test == TestInForce(cfg, actions[..k]) && m.ndsCom == NdsComInForce(cfg, actions[..k])
  }

  // Frame i is of the request at k: the last one accepted before it.
  ghost predicate LastAccepted(cfg: Config, actions: seq<Action>, k: nat, i: nat)
    requires cfg.retrans != []
  {
    && k < |actions| && Accepted(cfg, actions, k) && SentBefore(cfg, actions, k) <= i
    && forall x | k < x < |actions| && Accepted(cfg, actions, x) :: i < SentBefore(cfg, actions, x)
  }

  // The request at c is the last change of state up to the one at k: a Publish,
  // or the Refresh before any.
  ghost predicate LastChange(cfg: Config, actions: seq<Action>, c: nat, k: nat)
    requires cfg.retrans != []
  {
    && c <= k < |actions| && Accepted(cfg, actions, c)
    && (actions[c].Publish? || SentBefore(cfg, actions, c) == 0)
    && forall x | c < x <= k && Accepted(cfg, actions, x) :: actions[x].Refresh?
  }

  // In every run, each frame carries the values, the count, the flags and the
  // configured fields of the last request accepted before it, and the time of
  // the last change of state.
  lemma {:induction false} FramesCarry(cfg: Config, actions: seq<Action>, i: nat) returns (k: nat, c: nat)
    requires cfg.retrans != [] && i < |Run(cfg, actions).sent|
    ensures LastAccepted(cfg, actions, k, i) && Carries(cfg, actions, k, Run(cfg, actions).sent[i].msg)
    ensures LastChange(cfg, actions, c, k) && Run(cfg, actions).sent[i].msg.t == actions[c].now
    decreases i
  {
    hide Run, Next, Carries, SentBefore, LastChange, Inv, Sequential;
    var f := Run(cfg, actions).sent[i];
    RunKeeps(cfg, actions);
    if f.kind.Repeated? {
      RepeatFollows(cfg, actions, i);
      k, c := FramesCarry(cfg, actions, i - 1);
      CarriedOn(cfg, actions, k, Run(cfg, actions).sent[i - 1].msg, f.msg);
      AcceptedIsNoRepeat(cfg, actions, k, i);
    } else {
      k := Sender(cfg, actions, i);
      SenderIsLast(cfg, actions, k, i);
      SenderCarries(cfg, actions, k, i);
      if actions[k].Publish? || i == 0 {
        c := k;
        ChangedNow(cfg, actions, k, i);
      } else {
        var k0, c0 := FramesCarry(cfg, actions, i - 1);
        c := c0;
        ChangeCarriedOn(cfg, actions, c, k0, k, i);
      }
    }
  }

  lemma CarriedOn(cfg: Config, actions: seq<Action>, k: nat, m: Message, g: Message)
    requires k < |actions| && (actions[k].Publish? || actions[k].Refresh?) && Carries(cfg, actions, k, m)
    requires g == Retransmission(m, g.sqNum, g.timeAllowedToLive)
    ensures Carries(cfg, actions, k, g) && g.t == m.t
  {
    hide TestInForce, NdsComInForce;
  }

  // A retransmission repeats the frame before it.
  lemma RepeatFollows(cfg: Config, actions: seq<Action>, i: nat)
    requires cfg.retrans != [] && Inv(cfg, Run(cfg, actions)) && i < |Run(cfg, actions).sent|
    requires Run(cfg, actions).sent[i].kind.Repeated?
    ensures i > 0
    ensures
      var g := Run(cfg, actions).sent[i].msg;
      g == Retransmission(Run(cfg, actions).sent[i - 1].msg, g.sqNum, g.timeAllowedToLive)
  {
    hide Run, Fits, CurrentLoop, LastFrame, Tatl;
    if i > 0 {
      assert Follows(cfg, Run(cfg, actions).sent[i - 1], Run(cfg, actions).sent[i]);
    }
  }

  lemma RunSnoc(cfg: Config, actions: seq<Action>, k: nat)
    requires cfg.retrans != [] && k < |actions|
    ensures Run(cfg, actions[..k + 1]) == Next(cfg, Run(cfg, actions[..k]), actions[k])
  {
    hide Next;
    assert actions[..k + 1][..k] == actions[..k];
  }

  // A step attempts at most one frame and takes none back.
  lemma SentGrows(cfg: Config, s: PubState, a: Action)
    requires cfg.retrans != []
    ensures var t := Next(cfg, s, a).sent;
      t == s.sent || (|t| == |s.sent| + 1 && t[..|s.sent|] == s.sent)
  {
    hide Fits, NewMessage, Tatl;
  }

  lemma {:induction false} SentPrefix(cfg: Config, actions: seq<Action>, k: nat)
    requires cfg.retrans != [] && k <= |actions|
    ensures Run(cfg, actions[..k]).sent <= Run(cfg, actions).sent
    decreases |actions| - k
  {
    hide Run, Next;
    if k == |actions| {
      assert actions[..k] == actions;
    } else {
      RunSnoc(cfg, actions, k);
      SentGrows(cfg, Run(cfg, actions[..k]), actions[k]);
      SentPrefix(cfg, actions, k + 1);
    }
  }

  lemma SentMonotone(cfg: Config, actions: seq<Action>, j: nat, k: nat)
    requires cfg.retrans != [] && j <= k <= |actions|
    ensures SentBefore(cfg, actions, j) <= SentBefore(cfg, actions, k)
  {
    hide Run;
    SentPrefix(cfg, actions[..k], j);
    assert actions[..k][..j] == actions[..j];
  }

  // The action that attempted frame i.
  lemma {:induction false} SenderUpTo(cfg: Config, actions: seq<Action>, i: nat, n: nat) returns (k: nat)
    requires cfg.retrans != [] && n <= |actions| && i < SentBefore(cfg, actions, n)
    ensures k < n && SentBefore(cfg, actions, k) == i && SentBefore(cfg, actions, k + 1) == i + 1
    decreases n
  {
    hide Run, Next;
    NothingAtFirst(cfg, actions);
    RunSnoc(cfg, actions, n - 1);
    SentGrows(cfg, Run(cfg, actions[..n - 1]), actions[n - 1]);
    if i < SentBefore(cfg, actions, n - 1) {
      k := SenderUpTo(cfg, actions, i, n - 1);
    } else {
      k := n - 1;
    }
  }

  lemma NothingAtFirst(cfg: Config, actions: seq<Action>)
    requires cfg.retrans != []
    ensures SentBefore(cfg, actions, 0) == 0
  {
    assert actions[..0] == [];
  }

  lemma Sender(cfg: Config, actions: seq<Action>, i: nat) returns (k: nat)
    requires cfg.retrans != [] && i < |Run(cfg, actions).sent| && !Run(cfg, actions).sent[i].kind.Repeated?
    ensures k < |actions| && SentBefore(cfg, actions, k) == i && SentBefore(cfg, actions, k + 1) == i + 1
    ensures Accepted(cfg, actions, k)
    ensures Run(cfg, actions[..k + 1]).sent[i] == Run(cfg, actions).sent[i]
  {
    hide Run, Next;
    assert actions[..|actions|] == actions;
    k := SenderUpTo(cfg, actions, i, |actions|);
    SentPrefix(cfg, actions, k + 1);
    RunSnoc(cfg, actions, k);
    FirstIsAsked(cfg, Run(cfg, actions[..k]), actions[k]);
  }

  // Only a Publish or a Refresh attempts a frame that is no retransmission.
  lemma FirstIsAsked(cfg: Config, s: PubState, a: Action)
    requires cfg.retrans != [] && |Next(cfg, s, a).sent| > |s.sent|
    ensures Next(cfg, s, a).sent[|s.sent|].kind.Repeated? || a.Publish? || a.Refresh?
    ensures a.Publish? || a.Refresh? ==> !Next(cfg, s, a).sent[|s.sent|].kind.Repeated?
  {
    hide Fits, NewMessage, Tatl;
  }

  lemma SenderIsLast(cfg: Config, actions: seq<Action>, k: nat, i: nat)
    requires cfg.retrans != [] && k < |actions| && Accepted(cfg, actions, k)
    requires SentBefore(cfg, actions, k) == i && SentBefore(cfg, actions, k + 1) == i + 1
    ensures LastAccepted(cfg, actions, k, i)
  {
    hide SentBefore;
    forall x | k < x < |actions| && Accepted(cfg, actions, x)
      ensures i < SentBefore(cfg, actions, x)
    {
      SentMonotone(cfg, actions, k + 1, x);
    }
  }

  // No request is accepted with a retransmission, so the last one before the
  // frame is the last one before that too.
  lemma AcceptedIsNoRepeat(cfg: Config, actions: seq<Action>, k: nat, i: nat)
    requires cfg.retrans != [] && 0 < i < |Run(cfg, actions).sent| && Run(cfg, actions).sent[i].kind.Repeated?
    requires LastAccepted(cfg, actions, k, i - 1)
    ensures LastAccepted(cfg, actions, k, i)
  {
    hide Run, Next;
    forall x | k < x < |actions| && Accepted(cfg, actions, x)
      ensures i < SentBefore(cfg, actions, x)
    {
      RunSnoc(cfg, actions, x);
      SentPrefix(cfg, actions, x + 1);
      FirstIsAsked(cfg, Run(cfg, actions[..x]), actions[x]);
    }
  }

  lemma {:induction false} FlagsInForce(cfg: Config, actions: seq<Action>)
    requires cfg.retrans != []
    ensures Run(cfg, actions).test == TestInForce(cfg, actions)
    ensures Run(cfg, actions).ndsCom == NdsComInForce(cfg, actions)
    decreases |actions|
  {
    if actions != [] {
      hide Next;
      var front := actions[..|actions| - 1];
      FlagsInForce(cfg, front);
      FlagsStep(cfg, Run(cfg, front), actions[|actions| - 1]);
    }
  }

  lemma FlagsStep(cfg: Config, s: PubState, a: Action)
    requires cfg.retrans != []
    ensures Next(cfg, s, a).test == if a.SetTest? then a.on else s.test
    ensures Next(cfg, s, a).ndsCom == if a.SetNdsCom? then a.on else s.ndsCom
  {
    hide Fits, NewMessage, Tatl;
  }

  lemma SenderCarries(cfg: Config, actions: seq<Action>, k: nat, i: nat)
    requires cfg.retrans != [] && k < |actions| && Accepted(cfg, actions, k)
    requires SentBefore(cfg, actions, k) == i && SentBefore(cfg, actions, k + 1) == i + 1
    ensures Carries(cfg, actions, k, Run(cfg, actions[..k + 1]).sent[i].msg)
  {
    hide Run, Fits, Tatl, TestInForce, NdsComInForce;
    RunSnoc(cfg, actions, k);
    FlagsInForce(cfg, actions[..k]);
  }

  // The time of the first frame of a request: its own, or that of the frame before.
  lemma FirstTime(cfg: Config, s: PubState, a: Action)
    requires cfg.retrans != [] && Inv(cfg, s) && (a.Publish? || a.Refresh?) && |Next(cfg, s, a).sent| > |s.sent|
    ensures Next(cfg, s, a).sent[|s.sent|].msg.t ==
            if a.Publish? || s.sent == [] then a.now else Last(s.sent).msg.t
  {
    hide Fits, Tatl, Sequential, CurrentLoop;
  }

  lemma ChangedNow(cfg: Config, actions: seq<Action>, k: nat, i: nat)
    requires cfg.retrans != [] && k < |actions| && Accepted(cfg, actions, k) && (actions[k].Publish? || i == 0)
    requires SentBefore(cfg, actions, k) == i && SentBefore(cfg, actions, k + 1) == i + 1
    ensures LastChange(cfg, actions, k, k) && Run(cfg, actions[..k + 1]).sent[i].msg.t == actions[k].now
  {
    hide Run, Next, Inv;
    RunSnoc(cfg, actions, k);
    RunKeeps(cfg, actions[..k]);
    FirstTime(cfg, Run(cfg, actions[..k]), actions[k]);
  }

  // A Refresh takes the time of the frame before it, and no request was accepted
  // in between.
  lemma ChangeCarriedOn(cfg: Config, actions: seq<Action>, c: nat, k0: nat, k: nat, i: nat)
    requires cfg.retrans != [] && k < |actions| && Accepted(cfg, actions, k) && actions[k].Refresh?
    requires 0 < i < |Run(cfg, actions).sent|
    requires SentBefore(cfg, actions, k) == i && SentBefore(cfg, actions, k + 1) == i + 1
    requires LastAccepted(cfg, actions, k0, i - 1) && LastChange(cfg, actions, c, k0)
    ensures LastChange(cfg, actions, c, k)
    ensures Run(cfg, actions[..k + 1]).sent[i].msg.t == Run(cfg, actions).sent[i - 1].msg.t
  {
    hide SentBefore, Run;
    TimeCarriedOn(cfg, actions, k, i);
    assert k0 < k by {
      if k < k0 {
        SentMonotone(cfg, actions, k + 1, k0);
      }
    }
    forall x | c < x <= k && Accepted(cfg, actions, x)
      ensures actions[x].Refresh?
    {
      if k0 < x < k {
        SentMonotone(cfg, actions, x + 1, k);
      }
    }
  }

  lemma TimeCarriedOn(cfg: Config, actions: seq<Action>, k: nat, i: nat)
    requires cfg.retrans != [] && k < |actions| && actions[k].Refresh? && 0 < i < |Run(cfg, actions).sent|
    requires SentBefore(cfg, actions, k) == i && SentBefore(cfg, actions, k + 1) == i + 1
    ensures Run(cfg, actions[..k + 1]).sent[i].msg.t == Run(cfg, actions).sent[i - 1].msg.t
  {
    hide Run, Next, Inv;
    RunSnoc(cfg, actions, k);
    RunKeeps(cfg, actions[..k]);
    SentPrefix(cfg, actions, k);
    FirstTime(cfg, Run(cfg, actions[..k]), actions[k]);
  }

  // What a request asks for is what its frame carries once it is accepted: the
  // size it is refused for is the size of that.
  lemma AskedCarries(cfg: Config, before: seq<Action>, a: Action)
    requires cfg.retrans != [] && (a.Publish? || a.Refresh?)
    ensures
      var s := Run(cfg, before); var m := Asked(cfg, s, a);
      && Carries(cfg, before + [a], |before|, m)
      && m.t == (if a.Publish? || s.sent == [] then a.now else Last(s.sent).msg.t)
  {
    hide Run, Fits, Tatl, TestInForce, NdsComInForce, Sequential, CurrentLoop;
    assert (before + [a])[..|before|] == before;
    FlagsInForce(cfg, before);
    RunKeeps(cfg, before);
  }

  datatype PublishResult = Sent | ErrClosed | ErrFrameTooLarge

  // The publisher as it runs. A stop channel is the number of its loop, and
  // the closed channels are a set; sent records what WriteFrame was given.
  class Publisher {
    const cfg: Config
    var stNum: uint32
    var sqNum: uint32
    var test: bool
    var ndsCom: bool
    var msg: Option<Message>
    var stop: Option<nat>
    var closed: bool
    var stopped: set<nat>
    var loops: seq<Loop>
    var sent: seq<Frame>

    constructor (cfg: Config)
      requires cfg.retrans != []
      ensures this.cfg == cfg && Abs() == Initial(cfg)
    {
      this.cfg := cfg;
      stNum, sqNum, test, ndsCom := 0, 0, cfg.test, cfg.ndsCom;
      msg, stop, closed := None, None, false;
      stopped, loops, sent := {}, [], [];
    }

    function Abs(): PubState
      reads this
    {
      PubState(stNum, sqNum, test, ndsCom, msg, stop, closed, stopped, loops, sent)
    }

    method PublishValues(values: seq<Value>, now: ValidTime) returns (r: PublishResult)
      requires cfg.retrans != []
      modifies this
      ensures Abs() == Next(cfg, old(Abs()), Publish(values, now))
      ensures r.ErrClosed? <==> old(closed)
      ensures r.Sent? <==> |sent| == |old(sent)| + 1
    {
      hide Announce;
      if closed {
        return ErrClosed;
      }
      var st: nat := (stNum + 1) % 0x1_0000_0000;
      if st == 0 {
        st := 1;
      }
      r := PublishLocked(values, st, now, true, Published);
    }

    method RefreshValues(values: seq<Value>, now: ValidTime) returns (r: PublishResult)
      requires cfg.retrans != []
      modifies this
      ensures Abs() == Next(cfg, old(Abs()), Refresh(values, now))
      ensures r.ErrClosed? <==> old(closed)
      ensures r.Sent? <==> |sent| == |old(sent)| + 1
    {
      hide Announce;
      if closed {
        return ErrClosed;
      }
      var kind := if stNum == 0 then Published else Refreshed;
      r := PublishLocked(values, if stNum == 0 then 1 else stNum, now, false, kind);
    }

    method PublishLocked(values: seq<Value>, st: uint32, now: ValidTime, stateChange: bool, kind: Kind)
      returns (r: PublishResult)
      requires cfg.retrans != []
      modifies this
      ensures
        var t := if !stateChange && old(msg).Some? then old(msg).value.t else now;
        Abs() == Announce(cfg, old(Abs()), values, st, t, kind)
      ensures !r.ErrClosed?
      ensures r.Sent? <==> |sent| == |old(sent)| + 1
    {
      hide Marshal, Tatl;
      var t := if !stateChange && msg.Some? then msg.value.t else now;
      var m := NewMessage(cfg, Abs(), values, st, t);
      var widest := Build(Widest(m));
      if |widest| > MAX_PAYLOAD {
        return ErrFrameTooLarge;
      }
      StartState(m, st, kind);
      r := Sent;
    }

    // The change of state, its first frame and its retransmission loop.
    method StartState(m: Message, st: uint32, kind: Kind)
      modifies this
      ensures Abs() == Started(old(Abs()), m, st, kind)
    {
      if stop.Some? {
        stopped := stopped + {stop.value};
        stop := None;
      }
      msg, stNum, sqNum := Some(m), st, 0;
      sent := sent + [Frame(m, kind, |loops|, 0)];
      stop := Some(|loops|);
      loops := loops + [Loop(m, 0, Waiting)];
    }

    method Shut()
      requires cfg.retrans != []
      modifies this
      ensures Abs() == Next(cfg, old(Abs()), Close)
    {
      if !closed {
        closed := true;
        if stop.Some? {
          stopped := stopped + {stop.value};
          stop := None;
        }
      }
    }

    // One turn of retransmit up to the lock: the timer, then the next sqNum.
    method TimerFires(id: nat)
      requires cfg.retrans != [] && id < |loops| && loops[id].phase.Waiting?
      modifies this
      ensures Abs() == Next(cfg, old(Abs()), Wake(id))
    {
      hide Tatl;
      var l := loops[id];
      var sq: nat := (l.msg.sqNum + 1) % 0x1_0000_0000;
      if sq == 0 {
        sq := 1;
      }
      loops := loops[id := Loop(l.msg.(sqNum := sq, timeAllowedToLive := Tatl(cfg, l.turn + 1)), l.turn, Woken)];
    }

    // The critical section of that turn, which looks at stop again.
    method RetransmitLocked(id: nat, sendOk: bool)
      requires cfg.retrans != [] && id < |loops| && loops[id].phase.Woken?
      modifies this
      ensures Abs() == Next(cfg, old(Abs()), Fire(id, sendOk))
    {
      var l := loops[id];
      if id in stopped {
        loops := loops[id := l.(phase := Done)];
        return;
      }
      sqNum := l.msg.sqNum;
      sent := sent + [Frame(l.msg, Repeated, id, l.turn + 1)];
      loops := loops[id := Loop(l.msg, l.turn + 1, if sendOk then Waiting else Done)];
    }
  }
}
