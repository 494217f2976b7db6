// The replay windows of a session, one per sender, identifier and key, and
// the eviction of idle ones (rsession/session.go).

module ReplayTable {
  import opened Octets
  import opened ReplayWindow

  datatype StreamKey = StreamKey(from: string, si: byte, keyID: uint32)

  type Table = map<StreamKey, Window>

  const MAX_STREAMS := 4096

  // Entries silent for longer than the reset time are dropped.
  function Evict(t: Table, now: int, reset: int): (r: Table)
  {
    map k | k in t && now - t[k].last <= reset :: t[k]
  }

  datatype Outcome = Outcome(admitted: bool, table: Table)

  function Judge(t: Table, k: StreamKey, n: uint32, now: int, size: nat, reset: int): (r: Outcome)
    requires size <= 64
  {
    var w := if k in t then t[k] else FRESH;
    var d := Accept(w, n, now, size, reset);
    Outcome(d.accepted, t[k := d.window])
  }

  function Check(t: Table, k: StreamKey, n: uint32, now: int, size: nat, reset: int): (r: Outcome)
    requires size <= 64
  {
    var kept := if k !in t && |t| >= MAX_STREAMS then Evict(t, now, reset) else t;
    Judge(kept, k, n, now, size, reset)
  }

  // The receive side of Session.
  class Session {
    const size: nat
    const reset: int
    var replay: Table

    constructor (size: nat, reset: int)
      requires 1 <= size <= 64
      ensures this.size == size && this.reset == reset && replay == map[]
    {
      this.size := size;
      this.reset := reset;
      replay := map[];
    }

    method Fresh(k: StreamKey, n: uint32, now: int) returns (ok: bool)
      requires size <= 64
      modifies this
      ensures Outcome(ok, replay) == Check(old(replay), k, n, now, size, reset)
    {
      ghost var kept := replay;
      if k !in replay {
        if |replay| >= MAX_STREAMS {
          DropIdle(now);
        }
        kept := replay;
        replay := replay[k := FRESH];
      }
      var d := Accept(replay[k], n, now, size, reset);
      assert replay[k := d.window] == kept[k := d.window];
      replay := replay[k := d.window];
      ok := d.accepted;
    }

    method DropIdle(now: int)
      modifies this
      ensures replay == Evict(old(replay), now, reset)
    {
      var todo := replay.Keys;
      while todo != {}
        invariant todo <= old(replay).Keys
        invariant replay.Keys <= old(replay).Keys
        invariant forall k | k in todo :: k in replay
        invariant forall k | k in old(replay).Keys - todo :: k in replay <==> now - old(replay)[k].last <= reset
        invariant forall k | k in replay :: replay[k] == old(replay)[k]
        decreases todo
      {
        var k :| k in todo;
        if now - replay[k].last > reset {
          replay := replay - {k};
        }
        todo := todo - {k};
      }
    }
  }

  // Below 4096 streams nothing is forgotten, and from there on a new stream costs
  // those that have been silent for longer than the reset time, and no other.
  lemma ForgottenExactly(t: Table, k: StreamKey, n: uint32, now: int, size: nat, reset: int, other: StreamKey)
    requires size <= 64 && other != k
    ensures
      var after := Check(t, k, n, now, size, reset).table;
      && k in after
      && (other in after <==> other in t && (k in t || |t| < 4096 || now - t[other].last <= reset))
      && (other in after ==> after[other] == t[other])
  {
    hide Accept;
  }

  // Runs

  datatype Datagram = Datagram(k: StreamKey, n: uint32, now: int)

  ghost predicate Ordered(es: seq<Datagram>)
  {
    forall i, j | 0 <= i < j < |es| :: es[i].now <= es[j].now
  }

  // The decisions of the session, and of one that keeps every window.
  function Decisions(t: Table, es: seq<Datagram>, size: nat, reset: int): (ds: seq<bool>)
    requires size <= 64
    decreases es
  {
    if es == [] then []
    else
      var o := Check(t, es[0].k, es[0].n, es[0].now, size, reset);
      [o.admitted] + Decisions(o.table, es[1..], size, reset)
  }

  function KeepingDecisions(t: Table, es: seq<Datagram>, size: nat, reset: int): (ds: seq<bool>)
    requires size <= 64
    decreases es
  {
    if es == [] then []
    else
      var o := Judge(t, es[0].k, es[0].n, es[0].now, size, reset);
      [o.admitted] + KeepingDecisions(o.table, es[1..], size, reset)
  }

  // t holds what all does, except windows that are past their reset time.
  ghost predicate Agrees(t: Table, all: Table, now: int, reset: int)
  {
    && (forall k | k in t :: k in all && t[k] == all[k])
    && (forall k | k in all && k !in t :: now - all[k].last > reset)
    && (forall k | k in all :: all[k].primed)
  }

  lemma EvictAgrees(t: Table, all: Table, now: int, reset: int)
    requires Agrees(t, all, now, reset)
    ensures Agrees(Evict(t, now, reset), all, now, reset)
  {}

  lemma JudgeAgrees(t: Table, all: Table, k: StreamKey, n: uint32, now: int, size: nat, reset: int)
    requires size <= 64 && reset > 0 && Agrees(t, all, now, reset)
    ensures
      var a := Judge(t, k, n, now, size, reset);
      var b := Judge(all, k, n, now, size, reset);
      a.admitted == b.admitted && Agrees(a.table, b.table, now, reset)
  {
    if k !in t && k in all {
      assert Resets(all[k], now, reset);
    }
  }

  lemma StepAgrees(t: Table, all: Table, e: Datagram, size: nat, reset: int)
    requires size <= 64 && reset > 0 && Agrees(t, all, e.now, reset)
    ensures
      var a := Check(t, e.k, e.n, e.now, size, reset);
      var b := Judge(all, e.k, e.n, e.now, size, reset);
      a.admitted == b.admitted && Agrees(a.table, b.table, e.now, reset)
  {
    hide Judge;
    EvictAgrees(t, all, e.now, reset);
    var kept := if e.k !in t && |t| >= MAX_STREAMS then Evict(t, e.now, reset) else t;
    JudgeAgrees(kept, all, e.k, e.n, e.now, size, reset);
  }

  lemma {:induction false} DecisionsAgree(t: Table, all: Table, es: seq<Datagram>, size: nat, reset: int)
    requires size <= 64 && reset > 0 && Ordered(es)
    requires es != [] ==> Agrees(t, all, es[0].now, reset)
    ensures Decisions(t, es, size, reset) == KeepingDecisions(all, es, size, reset)
    decreases es
  {
    hide Check, Judge;
    if es != [] {
      StepAgrees(t, all, es[0], size, reset);
      assert Ordered(es[1..]) by {
        forall i, j | 0 <= i < j < |es[1..]| ensures es[1..][i].now <= es[1..][j].now {
          assert es[1..][i] == es[i + 1] && es[1..][j] == es[j + 1];
        }
      }
      DecisionsAgree(Check(t, es[0].k, es[0].n, es[0].now, size, reset).table,
                     Judge(all, es[0].k, es[0].n, es[0].now, size, reset).table, es[1..], size, reset);
    }
  }

  // With a reset time that is not positive the equivalence fails, and this
  // is how: MAX_STREAMS senders, one more that has them all evicted, and then
  // a number of the first sender again.

  function Sender(i: uint32): StreamKey { StreamKey("", 0, i) }

  function Fill(n: uint32): (es: seq<Datagram>)
    ensures forall e | e in es :: e.now == 0
  {
    if n == 0 then [] else Fill(n - 1) + [Datagram(Sender(n - 1), 0, 0)]
  }

  const REPLAYED := [Datagram(Sender(MAX_STREAMS), 0, 1), Datagram(Sender(0), 0, 1)]

  function TableAfter(t: Table, es: seq<Datagram>, size: nat, reset: int): Table
    requires size <= 64
    decreases |es|
  {
    if es == [] then t
    else
      var e := es[|es| - 1];
      Check(TableAfter(t, es[..|es| - 1], size, reset), e.k, e.n, e.now, size, reset).table
  }

  function KeepingTableAfter(t: Table, es: seq<Datagram>, size: nat, reset: int): Table
    requires size <= 64
    decreases |es|
  {
    if es == [] then t
    else
      var e := es[|es| - 1];
      Judge(KeepingTableAfter(t, es[..|es| - 1], size, reset), e.k, e.n, e.now, size, reset).table
  }

  lemma {:induction false} DecisionsConcat(t: Table, a: seq<Datagram>, b: seq<Datagram>, size: nat, reset: int)
    requires size <= 64
    ensures |Decisions(t, a, size, reset)| == |a|
    ensures Decisions(t, a + b, size, reset) ==
            Decisions(t, a, size, reset) + Decisions(TableAfter(t, a, size, reset), b, size, reset)
    decreases |a|
  {
    hide Check;
    if a == [] {
      assert a + b == b;
    } else {
      var front := a[..|a| - 1];
      var last := [a[|a| - 1]];
      assert a == front + last && a + b == front + (last + b);
      DecisionsConcat(t, front, last + b, size, reset);
      DecisionsConcat(t, front, last, size, reset);
      OneDecision(TableAfter(t, front, size, reset), last[0], b, size, reset);
    }
  }

  lemma OneDecision(t: Table, e: Datagram, b: seq<Datagram>, size: nat, reset: int)
    requires size <= 64
    ensures var o := Check(t, e.k, e.n, e.now, size, reset);
      Decisions(t, [e], size, reset) == [o.admitted]
      && Decisions(t, [e] + b, size, reset) == [o.admitted] + Decisions(o.table, b, size, reset)
  {
    hide Check;
    assert ([e] + b)[1..] == b;
  }

  lemma {:induction false} KeepingConcat(t: Table, a: seq<Datagram>, b: seq<Datagram>, size: nat, reset: int)
    requires size <= 64
    ensures |KeepingDecisions(t, a, size, reset)| == |a|
    ensures KeepingDecisions(t, a + b, size, reset) ==
            KeepingDecisions(t, a, size, reset) + KeepingDecisions(KeepingTableAfter(t, a, size, reset), b, size, reset)
    decreases |a|
  {
    hide Judge;
    if a == [] {
      assert a + b == b;
    } else {
      var front := a[..|a| - 1];
      var last := [a[|a| - 1]];
      assert a == front + last && a + b == front + (last + b);
      KeepingConcat(t, front, last + b, size, reset);
      KeepingConcat(t, front, last, size, reset);
      OneKept(KeepingTableAfter(t, front, size, reset), last[0], b, size, reset);
    }
  }

  lemma OneKept(all: Table, e: Datagram, b: seq<Datagram>, size: nat, reset: int)
    requires size <= 64
    ensures var o := Judge(all, e.k, e.n, e.now, size, reset);
      KeepingDecisions(all, [e], size, reset) == [o.admitted]
      && KeepingDecisions(all, [e] + b, size, reset) == [o.admitted] + KeepingDecisions(o.table, b, size, reset)
  {
    hide Judge;
    assert ([e] + b)[1..] == b;
  }

  ghost predicate FilledWith(t: Table, n: uint32)
  {
    && |t| == n
    && (forall i: uint32 | i < n :: Sender(i) in t && t[Sender(i)] == Window(0, 1, 0, true))
    && (forall k | k in t :: t[k].last == 0 && k.keyID < n)
  }

  lemma {:induction false} FillFills(n: uint32, size: nat, reset: int)
    requires n <= MAX_STREAMS && 1 <= size <= 64
    ensures FilledWith(TableAfter(map[], Fill(n), size, reset), n)
    ensures KeepingTableAfter(map[], Fill(n), size, reset) == TableAfter(map[], Fill(n), size, reset)
    decreases n
  {
    if n > 0 {
      FillFills(n - 1, size, reset);
      var es := Fill(n);
      assert es[..|es| - 1] == Fill(n - 1);
      FillStep(TableAfter(map[], Fill(n - 1), size, reset), n, size, reset);
    }
  }

  lemma FillStep(t: Table, n: uint32, size: nat, reset: int)
    requires 0 < n <= MAX_STREAMS && 1 <= size <= 64 && FilledWith(t, n - 1)
    ensures FilledWith(Check(t, Sender(n - 1), 0, 0, size, reset).table, n)
    ensures Check(t, Sender(n - 1), 0, 0, size, reset) == Judge(t, Sender(n - 1), 0, 0, size, reset)
  {
    hide Accept;
    AcceptsFirst(size, reset);
    assert Sender(n - 1) !in t;
    var t' := Judge(t, Sender(n - 1), 0, 0, size, reset).table;
    assert t'.Keys == t.Keys + {Sender(n - 1)};
  }

  lemma AcceptsFirst(size: nat, reset: int)
    requires size <= 64
    ensures Accept(FRESH, 0, 0, size, reset).window == Window(0, 1, 0, true)
  {}

  lemma ReplayAdmitted(size: nat, reset: int)
    requires 1 <= size <= 64 && reset <= 0
    ensures Ordered(Fill(MAX_STREAMS) + REPLAYED)
    ensures Decisions(map[], Fill(MAX_STREAMS) + REPLAYED, size, reset) !=
            KeepingDecisions(map[], Fill(MAX_STREAMS) + REPLAYED, size, reset)
  {
    hide TableAfter, KeepingTableAfter, Fill;
    var t := TableAfter(map[], Fill(MAX_STREAMS), size, reset);
    FillFills(MAX_STREAMS, size, reset);
    DecisionsConcat(map[], Fill(MAX_STREAMS), REPLAYED, size, reset);
    KeepingConcat(map[], Fill(MAX_STREAMS), REPLAYED, size, reset);
    LastDecisions(t, size, reset);
    var ds := Decisions(map[], Fill(MAX_STREAMS) + REPLAYED, size, reset);
    var ks := KeepingDecisions(map[], Fill(MAX_STREAMS) + REPLAYED, size, reset);
    assert ds[|ds| - 1] != ks[|ks| - 1];
  }

  lemma LastDecisions(t: Table, size: nat, reset: int)
    requires 1 <= size <= 64 && reset <= 0 && FilledWith(t, MAX_STREAMS)
    ensures Decisions(t, REPLAYED, size, reset) == [true, true]
    ensures KeepingDecisions(t, REPLAYED, size, reset) == [true, false]
  {
    hide Decisions, KeepingDecisions, Accept;
    var e0 := REPLAYED[0];
    var e1 := REPLAYED[1];
    assert REPLAYED == [e0] + [e1] && [e1] + [] == [e1];
    assert e0.k !in t;
    assert Evict(t, 1, reset) == map[];
    var a := Check(t, e0.k, 0, 1, size, reset);
    var b := Judge(t, e0.k, 0, 1, size, reset);
    AcceptsFresh(size, reset);
    OneDecision(t, e0, [e1], size, reset);
    OneKept(t, e0, [e1], size, reset);
    OneDecision(a.table, e1, [], size, reset);
    OneKept(b.table, e1, [], size, reset);
    assert e1.k !in a.table && |a.table| == 1;
    assert b.table[e1.k] == Window(0, 1, 0, true);
  }

  lemma AcceptsFresh(size: nat, reset: int)
    requires 1 <= size <= 64 && reset <= 0
    ensures Accept(FRESH, 0, 1, size, reset).accepted
    ensures !Accept(Window(0, 1, 0, true), 0, 1, size, reset).accepted
  {}

  // The session that evicts and the one that never does take the same
  // decision on every SPDU of every run exactly when the reset time is positive.
  lemma EvictionNeutral(size: nat, reset: int)
    requires 1 <= size <= 64
    ensures
      (forall es | Ordered(es) :: Decisions(map[], es, size, reset) == KeepingDecisions(map[], es, size, reset))
      <==> reset > 0
  {
    if reset > 0 {
      forall es | Ordered(es)
        ensures Decisions(map[], es, size, reset) == KeepingDecisions(map[], es, size, reset)
      {
        DecisionsAgree(map[], map[], es, size, reset);
      }
    } else {
      ReplayAdmitted(size, reset);
    }
  }
}
