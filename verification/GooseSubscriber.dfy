// The GOOSE subscriber's judgement of the stream (goose/subscriber.go), and
// what it says of the frames the publisher sends.

module GooseSubscriber {
  import opened Options
  import opened Octets
  import opened Ber
  import opened MmsData
  import opened GooseMessage
  import opened GoosePublisher

  // The last observed message of one control block; times in nanoseconds.
  datatype SeqState = SeqState(stNum: uint32, sqNum: uint32, tatl: nat, arrival: int)

  datatype Anomalies = Anomalies(stNumRegressed: bool, sqNumGap: bool, stale: bool, entriesMismatch: bool)

  datatype Filter = Filter(appID: uint16, goCbRef: Bytes)

  function Observe(m: Message, now: int): SeqState
  {
    SeqState(m.stNum, m.sqNum, m.timeAllowedToLive as int * 1_000_000, now)
  }

  predicate Regressed(st: SeqState, m: Message)
  {
    m.stNum < st.stNum && !(st.stNum == 0xffff_ffff && m.stNum == 1)
  }

  predicate Gap(st: SeqState, m: Message)
  {
    if m.stNum == st.stNum then
      var next := (st.sqNum + 1) % 0x1_0000_0000;
      m.sqNum != if next == 0 then 1 else next
    else m.sqNum != 0
  }

  predicate Stale(st: SeqState, now: int) { st.tatl > 0 && now - st.arrival > st.tatl }

  type States = map<Bytes, SeqState>

  function Judge(states: States, m: Message, now: int): Anomalies
  {
    var mismatch := m.numDatSetEntries != |m.values|;
    if m.goCbRef !in states then Anomalies(false, false, false, mismatch)
    else
      var st := states[m.goCbRef];
      Anomalies(Regressed(st, m), Gap(st, m), Stale(st, now), mismatch)
  }

  class Subscription {
    const filter: Filter
    var states: States

    constructor (filter: Filter)
      ensures this.filter == filter && states == map[]
    {
      this.filter := filter;
      states := map[];
    }

    // The anomalies of a message that is delivered; none is delivered that
    // the filter leaves out.
    method Receive(m: Message, now: int) returns (delivered: bool, a: Anomalies)
      modifies this
      ensures delivered <==>
        && (filter.appID != 0 ==> filter.appID == m.appID)
        && (filter.goCbRef != [] ==> filter.goCbRef == m.goCbRef)
      ensures delivered ==> a == Judge(old(states), m, now)
      ensures states == if delivered then old(states)[m.goCbRef := Observe(m, now)] else old(states)
    {
      a := Anomalies(false, false, false, false);
      if filter.appID != 0 && m.appID != filter.appID {
        return false, a;
      }
      if filter.goCbRef != [] && m.goCbRef != filter.goCbRef {
        return false, a;
      }
      a := a.(entriesMismatch := m.numDatSetEntries != |m.values|);
      if m.goCbRef in states {
        var st := states[m.goCbRef];
        var wrapped := st.stNum == 0xffff_ffff && m.stNum == 1;
        if m.stNum < st.stNum && !wrapped {
          a := a.(stNumRegressed := true);
        }
        if m.stNum == st.stNum {
          var next: nat := (st.sqNum + 1) % 0x1_0000_0000;
          if next == 0 {
            next := 1;
          }
          a := a.(sqNumGap := m.sqNum != next);
        } else {
          a := a.(sqNumGap := m.sqNum != 0);
        }
        a := a.(stale := st.tatl > 0 && now - st.arrival > st.tatl);
      }
      states := states[m.goCbRef := Observe(m, now)];
      delivered := true;
    }
  }

  // A feed: what arrives from any number of control blocks, in order.

  datatype Arrival = Arrival(m: Message, now: int)

  function StatesAfter(feed: seq<Arrival>): States
    decreases |feed|
  {
    if feed == [] then map[]
    else
      var e := feed[|feed| - 1];
      StatesAfter(feed[..|feed| - 1])[e.m.goCbRef := Observe(e.m, e.now)]
  }

  // The part of a feed that comes from one control block.
  function Ours(feed: seq<Arrival>, ref: Bytes): (ms: seq<Message>)
    decreases |feed|
  {
    if feed == [] then []
    else
      var e := feed[|feed| - 1];
      Ours(feed[..|feed| - 1], ref) + if e.m.goCbRef == ref then [e.m] else []
  }

  lemma {:induction false} StateIsLast(feed: seq<Arrival>, ref: Bytes)
    ensures
      var ms := Ours(feed, ref);
      if ms == [] then ref !in StatesAfter(feed)
      else
        && ref in StatesAfter(feed)
        && StatesAfter(feed)[ref].stNum == ms[|ms| - 1].stNum
        && StatesAfter(feed)[ref].sqNum == ms[|ms| - 1].sqNum
    decreases |feed|
  {
    if feed != [] { StateIsLast(feed[..|feed| - 1], ref); }
  }

  // The arrival at i is the last of its control block in a feed.
  ghost predicate LastArrival(feed: seq<Arrival>, i: nat, ref: Bytes)
  {
    && i < |feed| && feed[i].m.goCbRef == ref
    && forall j | i < j < |feed| :: feed[j].m.goCbRef != ref
  }

  lemma {:induction false} StateIsLastArrival(feed: seq<Arrival>, ref: Bytes)
    ensures (exists i: nat :: LastArrival(feed, i, ref)) <==> ref in StatesAfter(feed)
    ensures forall i: nat | LastArrival(feed, i, ref) ::
      StatesAfter(feed)[ref] == Observe(feed[i].m, feed[i].now)
    decreases |feed|
  {
    hide Observe;
    if feed != [] {
      var front, e := feed[..|feed| - 1], feed[|feed| - 1];
      StateIsLastArrival(front, ref);
      if e.m.goCbRef == ref {
        assert LastArrival(feed, |feed| - 1, ref);
      } else {
        assert forall i: nat :: LastArrival(feed, i, ref) <==> LastArrival(front, i, ref);
      }
    }
  }

  // A message is judged by the one its control block sent last: it is stale exactly
  // when more than that one's timeAllowedToLive has passed since it arrived.
  lemma JudgedByLast(feed: seq<Arrival>, next: Arrival, i: nat)
    requires LastArrival(feed, i, next.m.goCbRef)
    ensures
      var a, last := Judge(StatesAfter(feed), next.m, next.now), feed[i];
      && (a.stale <==>
        last.m.timeAllowedToLive > 0 && next.now - last.now > last.m.timeAllowedToLive as int * 1_000_000)
      && (a.stNumRegressed <==>
        next.m.stNum < last.m.stNum && !(last.m.stNum == 0xffff_ffff && next.m.stNum == 1))
      && (a.sqNumGap <==>
        if next.m.stNum != last.m.stNum then next.m.sqNum != 0
        else if last.m.sqNum == 0xffff_ffff then next.m.sqNum != 1
        else next.m.sqNum != last.m.sqNum + 1)
      && (a.entriesMismatch <==> next.m.numDatSetEntries != |next.m.values|)
  {
    StateIsLastArrival(feed, next.m.goCbRef);
  }

  // The first message of a control block has nothing to be judged by.
  lemma FirstIsNotJudged(feed: seq<Arrival>, next: Arrival)
    requires forall e | e in feed :: e.m.goCbRef != next.m.goCbRef
    ensures
      Judge(StatesAfter(feed), next.m, next.now) ==
      Anomalies(false, false, false, next.m.numDatSetEntries != |next.m.values|)
  {
    StateIsLastArrival(feed, next.m.goCbRef);
  }

  // One frame after the one before it: never a regression, and a gap exactly
  // when it starts a Refresh, which repeats stNum and starts sqNum anew.
  lemma InOrderFrame(cfg: Config, f: Frame, g: Frame, st: SeqState)
    requires cfg.retrans != [] && Follows(cfg, f, g)
    requires st.stNum == f.msg.stNum && st.sqNum == f.msg.sqNum
    ensures !Regressed(st, g.msg)
    ensures Gap(st, g.msg) <==> g.kind.Refreshed?
  {}

  // m is what a receiver makes of a frame and the octets that fill it up.
  ghost predicate Heard(m: Message, f: Frame)
  {
    exists padding :: Parse(Marshal(f.msg) + padding) == Ok(m)
  }

  // The frames a publisher has attempted, its values being sendable.
  ghost predicate Trace(cfg: Config, fs: seq<Frame>)
    requires cfg.retrans != []
  {
    exists actions :: fs == Run(cfg, actions).sent && forall f | f in fs :: Sendable(f.msg)
  }

  lemma TraceIsSequential(cfg: Config, fs: seq<Frame>)
    requires cfg.retrans != [] && Trace(cfg, fs)
    ensures Sequential(cfg, fs)
    ensures forall f | f in fs :: Sendable(f.msg) && |Marshal(f.msg)| <= MAX_PAYLOAD
  {
    hide Run, Sequential, Marshal, Sendable;
    var actions :| fs == Run(cfg, actions).sent && forall f | f in fs :: Sendable(f.msg);
    AttemptedSendsSequential(cfg, actions);
  }

  // Every frame is heard, and with the counters it was sent with.
  lemma FrameIsHeard(f: Frame, padding: Bytes, m: Message)
    requires Sendable(f.msg) && |Marshal(f.msg)| <= MAX_PAYLOAD
    ensures Parse(Marshal(f.msg) + padding) == Ok(Received(f.msg)) && Heard(Received(f.msg), f)
    ensures Heard(m, f) ==> m == Received(f.msg)
  {
    hide Parse, Marshal, Sendable, ApduLength;
    MarshalLength(f.msg);
    ParseMarshal(f.msg, padding);
    if Heard(m, f) {
      var other :| Parse(Marshal(f.msg) + other) == Ok(m);
      ParseMarshal(f.msg, other);
    }
  }

  // Whatever the publisher did, and whatever other traffic is mixed in, a
  // subscriber that loses nothing of what was sent since it began to listen
  // flags no regression, across both counter wraps, and flags as a gap exactly
  // the first frames of a Refresh.
  lemma LosslessFeed(cfg: Config, fs: seq<Frame>, from: nat, feed: seq<Arrival>, next: Arrival)
    requires cfg.retrans != [] && Trace(cfg, fs)
    requires
      var ms := Ours(feed, next.m.goCbRef) + [next.m];
      from + |ms| <= |fs| && forall i | 0 <= i < |ms| :: Heard(ms[i], fs[from + i])
    ensures
      var a := Judge(StatesAfter(feed), next.m, next.now);
      var k := from + |Ours(feed, next.m.goCbRef)|;
      && !a.stNumRegressed
      && (a.sqNumGap <==> Ours(feed, next.m.goCbRef) != [] && fs[k].kind.Refreshed?)
  {
    hide Heard, Trace, Sequential, Follows, Sendable, Marshal, Regressed, Gap, Ours, StatesAfter;
    var ms := Ours(feed, next.m.goCbRef);
    var all := ms + [next.m];
    StateIsLast(feed, next.m.goCbRef);
    TraceIsSequential(cfg, fs);
    if ms != [] {
      var k := from + |ms|;
      assert all[|ms|] == next.m && all[|ms| - 1] == ms[|ms| - 1];
      assert fs[k] in fs && fs[k - 1] in fs;
      HeardCounters(next.m, fs[k]);
      HeardCounters(ms[|ms| - 1], fs[k - 1]);
      InOrder(cfg, fs, k, StatesAfter(feed)[next.m.goCbRef], next.m);
    }
  }

  lemma InOrder(cfg: Config, fs: seq<Frame>, k: nat, st: SeqState, m: Message)
    requires cfg.retrans != [] && Sequential(cfg, fs) && 0 < k < |fs|
    requires st.stNum == fs[k - 1].msg.stNum && st.sqNum == fs[k - 1].msg.sqNum
    requires m.stNum == fs[k].msg.stNum && m.sqNum == fs[k].msg.sqNum
    ensures !Regressed(st, m) && (Gap(st, m) <==> fs[k].kind.Refreshed?)
  {
    hide Follows;
    assert Follows(cfg, fs[k - 1], fs[k]);
    InOrderFrame(cfg, fs[k - 1], fs[k], st);
  }

  lemma HeardCounters(m: Message, f: Frame)
    requires Heard(m, f) && Sendable(f.msg) && |Marshal(f.msg)| <= MAX_PAYLOAD
    ensures m.stNum == f.msg.stNum && m.sqNum == f.msg.sqNum
  {
    hide Heard, Marshal, Sendable;
    FrameIsHeard(f, [], m);
  }

  // Loss

  function SqAfter(sq: uint32, k: nat): (r: uint32)
  {
    if k == 0 then sq else NextSq(SqAfter(sq, k - 1))
  }

  // sqNum runs through 1 to 2^32 - 1 and over again.
  lemma {:induction false} SqAfterClosed(sq: uint32, k: nat)
    requires k > 0
    ensures SqAfter(sq, k) == (sq + k - 1) % 0xffff_ffff + 1
    decreases k
  {
    if k > 1 {
      SqAfterClosed(sq, k - 1);
      CycleStep(sq + k - 2);
    } else {
      assert SqAfter(sq, 1) == NextSq(sq);
    }
  }

  lemma CycleStep(x: nat)
    ensures (x + 1) % 0xffff_ffff == if x % 0xffff_ffff == 0xffff_fffe then 0 else x % 0xffff_ffff + 1
  {}

  // sqNum counts the retransmissions of a generation.
  lemma {:induction false} SqOfTurn(cfg: Config, fs: seq<Frame>, i: nat)
    requires cfg.retrans != [] && Sequential(cfg, fs) && i < |fs|
    ensures fs[i].msg.sqNum == SqAfter(0, fs[i].turn)
    ensures fs[i].kind.Repeated? <==> fs[i].turn > 0
    decreases i
  {
    if i > 0 {
      SqOfTurn(cfg, fs, i - 1);
      assert Follows(cfg, fs[i - 1], fs[i]);
    }
  }

  // The state changes announced by frames a + 1 to b.
  function Publishes(fs: seq<Frame>, a: nat, b: nat): (n: nat)
    requires a <= b < |fs|
    ensures n <= b - a
    decreases b
  {
    if a == b then 0 else Publishes(fs, a, b - 1) + if fs[b].kind.Published? then 1 else 0
  }

  // stNum runs through 1 to 2^32 - 1 and over again.
  lemma {:induction false} StAfter(cfg: Config, fs: seq<Frame>, a: nat, b: nat)
    requires cfg.retrans != [] && Sequential(cfg, fs) && a <= b < |fs|
    ensures fs[a].msg.stNum >= 1
    ensures fs[b].msg.stNum == (fs[a].msg.stNum - 1 + Publishes(fs, a, b)) % 0xffff_ffff + 1
    decreases b
  {
    TraceFacts(cfg, fs, a);
    if a < b {
      StAfter(cfg, fs, a, b - 1);
      assert Follows(cfg, fs[b - 1], fs[b]);
      CycleStep(fs[a].msg.stNum - 1 + Publishes(fs, a, b - 1));
    }
  }

  // What is to be flagged with frames a + 1 to b - 1 lost: of another state than
  // the last one seen, a retransmission; of the same, a first frame or any but
  // the retransmission due. The states differ unless the changes lost are a
  // multiple of 2^32 - 1.
  ghost predicate Flagged(fs: seq<Frame>, a: nat, b: nat)
    requires a <= b < |fs|
  {
    if Publishes(fs, a, b) % 0xffff_ffff != 0 then fs[b].turn > 0
    else fs[b].turn == 0 || (fs[b].turn - fs[a].turn - 1) % 0xffff_ffff != 0
  }

  lemma GapExactly(cfg: Config, fs: seq<Frame>, a: nat, b: nat, st: SeqState)
    requires cfg.retrans != [] && Sequential(cfg, fs) && a < b < |fs|
    requires st.stNum == fs[a].msg.stNum && st.sqNum == fs[a].msg.sqNum
    ensures Gap(st, fs[b].msg) <==> Flagged(fs, a, b)
  {
    hide Sequential, SqAfter, Publishes, Follows;
    StAfter(cfg, fs, a, b);
    SameCycle(st.stNum - 1, Publishes(fs, a, b));
    SqOfTurn(cfg, fs, a);
    SqOfTurn(cfg, fs, b);
    TurnsApart(fs[a].turn, fs[b].turn);
    SqIsZero(fs[b].turn);
  }

  lemma SqIsZero(turn: nat)
    ensures SqAfter(0, turn) == 0 <==> turn == 0
  {
    if turn > 0 {
      SqAfterClosed(0, turn);
    }
  }

  // One sqNum follows another exactly when their turns do, around the cycle.
  lemma TurnsApart(a: nat, b: nat)
    ensures SqAfter(0, b) == NextSq(SqAfter(0, a)) <==> b > 0 && (b - a - 1) % 0xffff_ffff == 0
  {
    hide SqAfter;
    assert NextSq(SqAfter(0, a)) == SqAfter(0, a + 1) by { OneMore(a); }
    SqAfterClosed(0, a + 1);
    if b > 0 {
      SqAfterClosed(0, b);
      SameResidue(b - 1, a);
    } else {
      SqIsZero(0);
    }
  }

  lemma OneMore(a: nat)
    ensures NextSq(SqAfter(0, a)) == SqAfter(0, a + 1)
  {}

  lemma SameResidue(x: nat, y: nat)
    ensures x % 0xffff_ffff == y % 0xffff_ffff <==> (x - y) % 0xffff_ffff == 0
  {
    if x >= y {
      SameCycle(y, x - y);
    } else {
      SameCycle(x, y - x);
      assert (x - y) % 0xffff_ffff == 0 <==> (y - x) % 0xffff_ffff == 0;
    }
  }

  // The changes lost lead across the end of the cycle, other than by one step
  // from its end to its beginning.
  ghost predicate WrapLost(fs: seq<Frame>, a: nat, b: nat)
    requires a <= b < |fs|
  {
    var p := Publishes(fs, a, b) % 0xffff_ffff;
    var st := fs[a].msg.stNum as int;
    st + p > 0xffff_ffff && !(st == 0xffff_ffff && p == 1)
  }

  lemma RegressedExactly(cfg: Config, fs: seq<Frame>, a: nat, b: nat, st: SeqState)
    requires cfg.retrans != [] && Sequential(cfg, fs) && a < b < |fs| && st.stNum == fs[a].msg.stNum
    ensures Regressed(st, fs[b].msg) <==> WrapLost(fs, a, b)
  {
    hide Sequential, Publishes;
    StAfter(cfg, fs, a, b);
    CycleSum(fs[a].msg.stNum - 1, Publishes(fs, a, b));
  }

  lemma CycleSum(x: nat, k: nat)
    requires x < 0xffff_ffff
    ensures
      var p := k % 0xffff_ffff;
      (x + k) % 0xffff_ffff == if x + p < 0xffff_ffff then x + p else x + p - 0xffff_ffff
  {
    var m := 0xffff_ffff;
    var p, q := k % m, k / m;
    assert x + k == (x + p) + m * q;
    AddMultiple(x + p, q);
  }

  // The feed has heard frame a of the publisher last, and hears frame b next.
  ghost predicate Skips(cfg: Config, fs: seq<Frame>, a: nat, b: nat, feed: seq<Arrival>, next: Arrival)
    requires cfg.retrans != []
  {
    var ms := Ours(feed, next.m.goCbRef);
    && Trace(cfg, fs) && a < b < |fs|
    && ms != [] && Heard(ms[|ms| - 1], fs[a]) && Heard(next.m, fs[b])
  }

  // In every run of the publisher and every feed, whichever frames were lost,
  // the next one heard is flagged as a gap exactly when it is to be, and as a
  // regression exactly when the loss leads across the wrap of stNum.
  lemma LossFlaggedExactly(cfg: Config, fs: seq<Frame>, a: nat, b: nat, feed: seq<Arrival>, next: Arrival)
    requires cfg.retrans != [] && Skips(cfg, fs, a, b, feed, next)
    ensures Judge(StatesAfter(feed), next.m, next.now).sqNumGap <==> Flagged(fs, a, b)
    ensures Judge(StatesAfter(feed), next.m, next.now).stNumRegressed <==> WrapLost(fs, a, b)
  {
    hide Trace, Heard, Sequential, Flagged, WrapLost;
    var ms := Ours(feed, next.m.goCbRef);
    StateIsLast(feed, next.m.goCbRef);
    TraceIsSequential(cfg, fs);
    HeardCounters(ms[|ms| - 1], fs[a]);
    HeardCounters(next.m, fs[b]);
    GapExactly(cfg, fs, a, b, StatesAfter(feed)[next.m.goCbRef]);
    RegressedExactly(cfg, fs, a, b, StatesAfter(feed)[next.m.goCbRef]);
  }

  // So of up to 2^32 - 2 frames lost, with no Refresh among them, a
  // retransmission is flagged exactly when there are any, across state changes
  // and both counter wraps.
  lemma LossIsFlagged(cfg: Config, fs: seq<Frame>, a: nat, b: nat, feed: seq<Arrival>, next: Arrival)
    requires cfg.retrans != [] && Skips(cfg, fs, a, b, feed, next)
    requires fs[b].kind.Repeated? && b - a - 1 <= 0xffff_fffe
    requires forall i | a < i < b :: !fs[i].kind.Refreshed?
    ensures Judge(StatesAfter(feed), next.m, next.now).sqNumGap <==> b - a - 1 >= 1
  {
    hide Trace, Heard, Sequential, Flagged, Judge, StatesAfter;
    LossFlaggedExactly(cfg, fs, a, b, feed, next);
    TraceIsSequential(cfg, fs);
    RetransmissionFlagged(cfg, fs, a, b);
  }

  lemma RetransmissionFlagged(cfg: Config, fs: seq<Frame>, a: nat, b: nat)
    requires cfg.retrans != [] && Sequential(cfg, fs) && a < b < |fs|
    requires fs[b].kind.Repeated? && b - a - 1 <= 0xffff_fffe
    requires forall i | a < i < b :: !fs[i].kind.Refreshed?
    ensures Flagged(fs, a, b) <==> b - a - 1 >= 1
  {
    hide Sequential, Publishes;
    SqOfTurn(cfg, fs, b);
    FewPublishes(cfg, fs, a, b);
  }

  // Without a Refresh, either no state change was lost, and the turns are as
  // far apart as the frames, or some were, but not a full cycle of them.
  lemma {:induction false} FewPublishes(cfg: Config, fs: seq<Frame>, a: nat, b: nat)
    requires cfg.retrans != [] && Sequential(cfg, fs) && a <= b < |fs|
    requires forall i | a < i <= b :: !fs[i].kind.Refreshed?
    ensures Publishes(fs, a, b) == 0 ==> fs[b].turn == fs[a].turn + (b - a)
    ensures fs[b].kind.Repeated? && a < b ==> Publishes(fs, a, b) <= b - a - 1
    decreases b
  {
    if a < b {
      FewPublishes(cfg, fs, a, b - 1);
      assert Follows(cfg, fs[b - 1], fs[b]);
    }
  }

  // Within a state: the next frame is flagged exactly when the number lost is
  // not a multiple of 2^32 - 1.
  lemma LossWithinState(cfg: Config, fs: seq<Frame>, a: nat, b: nat, st: SeqState)
    requires cfg.retrans != [] && Sequential(cfg, fs) && a < b < |fs|
    requires forall i | a < i <= b :: fs[i].kind.Repeated?
    requires st.stNum == fs[a].msg.stNum && st.sqNum == fs[a].msg.sqNum
    ensures Gap(st, fs[b].msg) <==> (b - a - 1) % 0xffff_ffff != 0
  {
    hide Sequential;
    NoPublishes(fs, a, b);
    FewPublishes(cfg, fs, a, b);
    GapExactly(cfg, fs, a, b, st);
  }

  lemma {:induction false} NoPublishes(fs: seq<Frame>, a: nat, b: nat)
    requires a <= b < |fs| && forall i | a < i <= b :: !fs[i].kind.Published?
    ensures Publishes(fs, a, b) == 0
    decreases b
  {
    if a < b {
      NoPublishes(fs, a, b - 1);
    }
  }

  lemma SameCycle(sq: nat, k: nat)
    ensures (sq + k) % 0xffff_ffff == sq % 0xffff_ffff <==> k % 0xffff_ffff == 0
  {
    var m := 0xffff_ffff;
    var q := k / m;
    var r := k % m;
    assert sq + k == (sq + r) + m * q;
    AddMultiple(sq + r, q);
  }

  lemma AddMultiple(x: nat, q: nat)
    ensures (x + 0xffff_ffff * q) % 0xffff_ffff == x % 0xffff_ffff
  {}

  // A Refresh among the lost frames can hide the loss: with the first frame of
  // a state, one retransmission, a Refresh and two retransmissions sent, a
  // subscriber that misses the Refresh and the retransmission after it takes
  // the last frame for the one due.
  function RefreshedOnce(values: seq<Value>, now: ValidTime): seq<Action>
  {
    [Publish(values, now), Wake(0), Fire(0, true), Refresh(values, now),
     Wake(1), Fire(1, true), Wake(1), Fire(1, true)]
  }

  lemma RefreshHidesLoss(cfg: Config, values: seq<Value>, now: ValidTime)
    requires cfg.retrans != [] && Fits(NewMessage(cfg, Initial(cfg), values, 1, now))
    ensures
      var fs := Run(cfg, RefreshedOnce(values, now)).sent;
      && |fs| == 5 && fs[2].kind.Refreshed? && fs[4].kind.Repeated?
      && !Flagged(fs, 1, 4)
  {
    hide Run, Fits, NewMessage;
    RefreshedTrace(cfg, values, now);
    NoPublishes(Run(cfg, RefreshedOnce(values, now)).sent, 1, 4);
  }

  lemma RefreshedTrace(cfg: Config, values: seq<Value>, now: ValidTime)
    requires cfg.retrans != [] && Fits(NewMessage(cfg, Initial(cfg), values, 1, now))
    ensures
      var fs := Run(cfg, RefreshedOnce(values, now)).sent;
      && |fs| == 5
      && fs[1].kind.Repeated? && fs[2].kind.Refreshed? && fs[3].kind.Repeated? && fs[4].kind.Repeated?
      && fs[1].turn == 1 && fs[2].turn == 0 && fs[3].turn == 1 && fs[4].turn == 2
  {
    hide Run, Next, Fits, NewMessage;
    var acts := RefreshedOnce(values, now);
    NothingRun(cfg, acts);
    Unrolled(cfg, acts, 0);
    var s1 := Run(cfg, acts[..1]);
    Begins(cfg, values, now);
    Unrolled(cfg, acts, 1);
    Unrolled(cfg, acts, 2);
    Retransmits(cfg, s1, 0);
    var s3 := Run(cfg, acts[..3]);
    Unrolled(cfg, acts, 3);
    Refreshes(cfg, s3, values, now);
    var s4 := Run(cfg, acts[..4]);
    Unrolled(cfg, acts, 4);
    Unrolled(cfg, acts, 5);
    Retransmits(cfg, s4, 1);
    var s6 := Run(cfg, acts[..6]);
    Unrolled(cfg, acts, 6);
    Unrolled(cfg, acts, 7);
    Retransmits(cfg, s6, 1);
    assert acts[..8] == acts;
  }

  lemma NothingRun(cfg: Config, acts: seq<Action>)
    requires cfg.retrans != []
    ensures Run(cfg, acts[..0]) == Initial(cfg)
  {}

  // A loop that waits, and is not stopped, sends one frame more.
  ghost predicate Current(s: PubState, id: nat)
  {
    id < |s.loops| && s.loops[id].phase.Waiting? && id !in s.stopped && !s.closed
  }

  lemma Retransmits(cfg: Config, s: PubState, id: nat)
    requires cfg.retrans != [] && Current(s, id)
    ensures
      var t := Next(cfg, Next(cfg, s, Wake(id)), Fire(id, true));
      && Current(t, id) && |t.loops| == |s.loops| && t.loops[id].turn == s.loops[id].turn + 1
      && t.msg == s.msg && t.stNum == s.stNum && t.test == s.test && t.ndsCom == s.ndsCom
      && t.stop == s.stop && t.stopped == s.stopped
      && |t.sent| == |s.sent| + 1 && t.sent[..|s.sent|] == s.sent
      && t.sent[|s.sent|].kind.Repeated? && t.sent[|s.sent|].turn == s.loops[id].turn + 1
  {
    hide Tatl, Marshal;
  }

  lemma Begins(cfg: Config, values: seq<Value>, now: ValidTime)
    requires cfg.retrans != [] && Fits(NewMessage(cfg, Initial(cfg), values, 1, now))
    ensures
      var m := NewMessage(cfg, Initial(cfg), values, 1, now);
      Next(cfg, Initial(cfg), Publish(values, now)) ==
      Initial(cfg).(
        stNum := 1, msg := Some(m), stop := Some(0),
        loops := [Loop(m, 0, Waiting)], sent := [Frame(m, Published, 0, 0)])
  {
    hide Fits;
  }

  lemma Refreshes(cfg: Config, s: PubState, values: seq<Value>, now: ValidTime)
    requires cfg.retrans != [] && Fits(NewMessage(cfg, Initial(cfg), values, 1, now))
    requires s.test == cfg.test && s.ndsCom == cfg.ndsCom && s.stNum == 1 && !s.closed
    requires s.msg == Some(NewMessage(cfg, Initial(cfg), values, 1, now))
    requires s.stop == Some(0) && s.stopped == {} && |s.loops| == 1
    ensures
      var t := Next(cfg, s, Refresh(values, now));
      && Current(t, 1) && |t.loops| == 2 && t.loops[1].turn == 0
      && |t.sent| == |s.sent| + 1 && t.sent[..|s.sent|] == s.sent
      && t.sent[|s.sent|].kind.Refreshed? && t.sent[|s.sent|].turn == 0
  {
    hide Fits;
    var m := NewMessage(cfg, Initial(cfg), values, 1, now);
    assert NewMessage(cfg, s, values, 1, m.t) == m;
  }

  lemma Unrolled(cfg: Config, acts: seq<Action>, i: nat)
    requires cfg.retrans != [] && i < |acts|
    ensures Run(cfg, acts[..i + 1]) == Next(cfg, Run(cfg, acts[..i]), acts[i])
  {
    hide Next;
    assert acts[..i + 1][..i] == acts[..i];
  }

  // The run that shows a false regression: so many state changes that stNum
  // wraps, and the first frame after the wrap lost.
  function Changes(values: seq<Value>, now: ValidTime, n: nat): seq<Action>
  {
    seq(n, _ => Publish(values, now))
  }

  // The message fits with any stNum.
  ghost predicate AlwaysFits(cfg: Config, values: seq<Value>, now: ValidTime)
    requires cfg.retrans != []
  {
    forall st: uint32 :: Fits(NewMessage(cfg, Initial(cfg), values, st, now))
  }

  lemma {:induction false} ChangesSent(cfg: Config, values: seq<Value>, now: ValidTime, n: nat)
    requires cfg.retrans != [] && AlwaysFits(cfg, values, now)
    ensures
      var s := Run(cfg, Changes(values, now, n));
      && |s.sent| == n && (forall i | 0 <= i < n :: s.sent[i].kind.Published?)
      && s.test == cfg.test && s.ndsCom == cfg.ndsCom && !s.closed
    decreases n
  {
    hide Fits;
    if n > 0 {
      var acts := Changes(values, now, n);
      assert acts[..n - 1] == Changes(values, now, n - 1);
      ChangesSent(cfg, values, now, n - 1);
      var s := Run(cfg, Changes(values, now, n - 1));
      assert NewMessage(cfg, s, values, NextSt(s.stNum), now) ==
             NewMessage(cfg, Initial(cfg), values, NextSt(s.stNum), now);
    }
  }

  lemma {:induction false} AllPublishes(fs: seq<Frame>, a: nat, b: nat)
    requires a <= b < |fs| && forall i | 0 <= i < |fs| :: fs[i].kind.Published?
    ensures Publishes(fs, a, b) == b - a
    decreases b
  {
    if a < b {
      AllPublishes(fs, a, b - 1);
    }
  }

  lemma LossAtTheWrapRegresses(cfg: Config, values: seq<Value>, now: ValidTime)
    requires cfg.retrans != [] && AlwaysFits(cfg, values, now)
    ensures
      var fs := Run(cfg, Changes(values, now, 0x1_0000_0001)).sent;
      && |fs| == 0x1_0000_0001 && fs[0xffff_fffe].msg.stNum == 0xffff_ffff
      && WrapLost(fs, 0xffff_fffe, 0x1_0000_0000) && !WrapLost(fs, 0xffff_fffe, 0xffff_ffff)
  {
    hide *;
    var acts := Changes(values, now, 0x1_0000_0001);
    ChangesSent(cfg, values, now, 0x1_0000_0001);
    AttemptedSendsSequential(cfg, acts);
    WrapOfChanges(cfg, Run(cfg, acts).sent);
  }

  lemma WrapOfChanges(cfg: Config, fs: seq<Frame>)
    requires cfg.retrans != [] && Sequential(cfg, fs) && |fs| == 0x1_0000_0001
    requires forall i | 0 <= i < |fs| :: fs[i].kind.Published?
    ensures fs[0xffff_fffe].msg.stNum == 0xffff_ffff
    ensures WrapLost(fs, 0xffff_fffe, 0x1_0000_0000) && !WrapLost(fs, 0xffff_fffe, 0xffff_ffff)
  {
    hide Sequential, Publishes;
    StAfter(cfg, fs, 0, 0xffff_fffe);
    AllPublishes(fs, 0, 0xffff_fffe);
    AllPublishes(fs, 0xffff_fffe, 0x1_0000_0000);
    AllPublishes(fs, 0xffff_fffe, 0xffff_ffff);
    FirstFrame(cfg, fs);
  }

  lemma FirstFrame(cfg: Config, fs: seq<Frame>)
    requires cfg.retrans != [] && Sequential(cfg, fs) && fs != []
    ensures fs[0].msg.stNum == 1
  {}

  // A frame that comes no later than the publisher's wait is not stale.
  lemma InTimeNotStale(cfg: Config, f: Frame, st: SeqState, now: int)
    requires cfg.retrans != [] && st == Observe(f.msg, st.arrival)
    requires f.msg.timeAllowedToLive == Tatl(cfg, f.turn)
    requires 2 * Wait(cfg, f.turn) < 0x1_0000_0000 * 1_000_000
    requires now - st.arrival <= Wait(cfg, f.turn)
    ensures !Stale(st, now)
  {
    TatlCoversWait(cfg, f.turn);
  }

  // Every frame of a publisher carries the timeAllowedToLive of its turn.
  lemma {:induction false} FrameTatl(cfg: Config, fs: seq<Frame>, i: nat)
    requires cfg.retrans != [] && Sequential(cfg, fs) && i < |fs|
    ensures fs[i].msg.timeAllowedToLive == Tatl(cfg, fs[i].turn)
  {
    if i > 0 { assert Follows(cfg, fs[i - 1], fs[i]); }
  }
}
