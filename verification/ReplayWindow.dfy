// The sliding replay window of rsession/replay.go: the manner of section
// 3.4.3 of RFC 4303 over the serial numbers of section 3.2 of RFC 1982.

module ReplayWindow {
  import opened Octets

  // A 64-bit word as a bit map, bit 0 the least significant.

  function Pow2(k: nat): (p: nat)
    ensures p >= 1
  {
    if k == 0 then 1 else 2 * Pow2(k - 1)
  }

  predicate Bit(w: nat, i: nat)
    decreases i
  {
    if i == 0 then w % 2 == 1 else Bit(w / 2, i - 1)
  }

  // w << d in 64 bits.
  function ShiftLeft(w: uint64, d: nat): (r: uint64)
    decreases d
  {
    if d == 0 then w else ShiftLeft(2 * w % 0x1_0000_0000_0000_0000, d - 1)
  }

  // w | 1 << i.
  function SetBit(w: nat, i: nat): (r: nat)
  {
    if Bit(w, i) then w else w + Pow2(i)
  }

  lemma {:induction false} BitOfSum(w: nat, i: nat, j: nat)
    requires !Bit(w, i)
    ensures Bit(w + Pow2(i), j) <==> j == i || Bit(w, j)
    decreases i
  {
    if i == 0 {
      assert (w + 1) / 2 == w / 2;
      if j > 0 { assert Bit(w + 1, j) == Bit(w / 2, j - 1); }
    } else {
      assert (w + 2 * Pow2(i - 1)) / 2 == w / 2 + Pow2(i - 1);
      if j > 0 { BitOfSum(w / 2, i - 1, j - 1); }
    }
  }

  lemma SetBitBits(w: nat, i: nat, j: nat)
    ensures Bit(SetBit(w, i), j) <==> j == i || Bit(w, j)
  {
    if !Bit(w, i) { BitOfSum(w, i, j); }
  }

  // Setting one of the low k bits keeps the word in k bits.
  lemma {:induction false} SumBound(w: nat, i: nat, k: nat)
    requires w < Pow2(k) && i < k && !Bit(w, i)
    ensures w + Pow2(i) < Pow2(k)
    decreases i
  {
    var half := Pow2(k - 1);
    assert Pow2(k) == 2 * half;
    if i > 0 {
      assert w / 2 < half;
      SumBound(w / 2, i - 1, k - 1);
    }
  }

  lemma Pow64()
    ensures Pow2(64) == 0x1_0000_0000_0000_0000
  {
    hide Pow2;
    Pow8();
    PowAdd(8, 8);
    PowAdd(16, 16);
    PowAdd(32, 32);
  }

  lemma Pow8()
    ensures Pow2(8) == 0x100
  {
    assert Pow2(4) == 16;
  }

  lemma {:induction false} PowAdd(a: nat, b: nat)
    ensures Pow2(a + b) == Pow2(a) * Pow2(b)
    decreases a
  {
    if a > 0 { PowAdd(a - 1, b); }
  }

  // A carry out of the low k bits does not touch them.
  lemma {:induction false} LowBitsKeep(w: nat, k: nat, i: nat)
    requires i < k
    ensures Bit(w + Pow2(k), i) == Bit(w, i)
    decreases i
  {
    assert (w + 2 * Pow2(k - 1)) / 2 == w / 2 + Pow2(k - 1);
    if i > 0 { LowBitsKeep(w / 2, k - 1, i - 1); }
  }

  lemma DoubleBits(w: uint64, i: nat)
    requires i < 64
    ensures Bit(2 * w % 0x1_0000_0000_0000_0000, i) <==> i > 0 && Bit(w, i - 1)
  {
    var v: nat := 2 * w % 0x1_0000_0000_0000_0000;
    Pow64();
    if 2 * w != v {
      assert 2 * w == v + Pow2(64);
      LowBitsKeep(v, 64, i);
    }
    assert 2 * w / 2 == w;
  }

  // Shifting moves bit i to i + d; what passes bit 63 is lost.
  lemma {:induction false} ShiftBits(w: uint64, d: nat, i: nat)
    requires i < 64
    ensures Bit(ShiftLeft(w, d), i) <==> i >= d && Bit(w, i - d)
    decreases d
  {
    if d > 0 {
      var v := 2 * w % 0x1_0000_0000_0000_0000;
      ShiftBits(v, d - 1, i);
      if i >= d - 1 { DoubleBits(w, i - (d - 1)); }
    }
  }

  // The window

  datatype Window = Window(top: uint32, seen: uint64, last: int, primed: bool)

  const FRESH := Window(0, 0, 0, false)

  // int32(n - top), the serial-number distance.
  function Distance(n: uint32, top: uint32): (d: int)
    ensures -0x8000_0000 <= d < 0x8000_0000
  {
    var u := (n - top) % 0x1_0000_0000;
    if u < 0x8000_0000 then u else u - 0x1_0000_0000
  }

  predicate Resets(w: Window, now: int, reset: int)
  {
    !w.primed || (reset > 0 && now - w.last > reset)
  }

  datatype Decision = Decision(accepted: bool, window: Window)

  function Accept(w: Window, n: uint32, now: int, size: nat, reset: int): (r: Decision)
    requires size <= 64
  {
    if Resets(w, now, reset) then Decision(true, Window(n, 1, now, true))
    else
      var diff := Distance(n, w.top);
      if diff > 0 then
        var shifted := if diff >= 64 then 1 else WithBit(ShiftLeft(w.seen, diff), 0);
        Decision(true, w.(top := n, seen := shifted, last := now))
      else
        var off := -diff;
        if off >= size || Bit(w.seen, off) then Decision(false, w)
        else Decision(true, w.(seen := WithBit(w.seen, off), last := now))
  }

  // w | 1 << i within 64 bits.
  function WithBit(w: uint64, i: nat): (r: uint64)
    requires i < 64
    ensures forall j: nat :: Bit(r, j) <==> j == i || Bit(w, j)
  {
    Pow64();
    forall j: nat ensures Bit(SetBit(w, i), j) <==> j == i || Bit(w, j) { SetBitBits(w, i, j); }
    if !Bit(w, i) then SumBound(w, i, 64); w + Pow2(i) else w
  }

  // replayWindow, whose fields accept updates in place.
  class Replay {
    var top: uint32
    var seen: uint64
    var last: int
    var primed: bool

    constructor ()
      ensures State() == FRESH
    {
      top, seen, last, primed := 0, 0, 0, false;
    }

    function State(): Window
      reads this
    {
      Window(top, seen, last, primed)
    }

    method AcceptNumber(n: uint32, now: int, size: nat, reset: int) returns (ok: bool)
      requires size <= 64
      modifies this
      ensures Decision(ok, State()) == Accept(old(State()), n, now, size, reset)
    {
      if !primed || (reset > 0 && now - last > reset) {
        top, seen, last, primed := n, 1, now, true;
        return true;
      }
      var diff := Distance(n, top);
      if diff > 0 {
        if diff >= 64 {
          seen := 1;
        } else {
          seen := WithBit(ShiftLeft(seen, diff), 0);
        }
        top := n;
      } else {
        var off := -diff;
        if off >= size || Bit(seen, off) {
          return false;
        }
        seen := WithBit(seen, off);
      }
      last := now;
      return true;
    }
  }

  // The reference: a receiver that remembers every number it has accepted,
  // each in full rather than modulo 2^32, and the highest of them.
  datatype Reference = Reference(top: int, accepted: set<int>)

  ghost predicate Sane(r: Reference)
  {
    r.top in r.accepted && forall x | x in r.accepted :: x <= r.top
  }

  // The full number nearest the top that n can stand for.
  function Extend(n: uint32, top: int): (e: int)
    ensures e % 0x1_0000_0000 == n
    ensures top - 0x8000_0000 <= e < top + 0x8000_0000
  {
    top + Distance(n, top % 0x1_0000_0000)
  }

  // Ahead of everything, or inside the window and new.
  predicate Admits(r: Reference, n: uint32, size: nat)
  {
    var e := Extend(n, r.top);
    e > r.top || (r.top - e < size && e !in r.accepted)
  }

  function Advance(r: Reference, n: uint32, size: nat): Reference
  {
    var e := Extend(n, r.top);
    if !Admits(r, n, size) then r
    else Reference(if e > r.top then e else r.top, r.accepted + {e})
  }

  // Bit i of the window says whether the number i below the top was accepted.
  ghost predicate Refines(w: Window, r: Reference)
  {
    && w.primed && Sane(r)
    && w.top == r.top % 0x1_0000_0000
    && forall i: nat | i < 64 :: Bit(w.seen, i) <==> r.top - i in r.accepted
  }

  // One step, away from a reset: the same decision, and the window goes on
  // standing for the numbers accepted.
  lemma StepRefines(w: Window, r: Reference, n: uint32, now: int, size: nat, reset: int)
    requires size <= 64 && Refines(w, r) && !Resets(w, now, reset)
    ensures Accept(w, n, now, size, reset).accepted <==> Admits(r, n, size)
    ensures Refines(Accept(w, n, now, size, reset).window, Advance(r, n, size))
  {
    hide Bit, ShiftLeft;
    var diff := Distance(n, w.top);
    var e := Extend(n, r.top);
    assert e == r.top + diff;
    if diff > 0 {
      AheadRefines(w, r, n, now, size, reset);
    } else {
      assert -diff < 64 ==> (Bit(w.seen, -diff) <==> e in r.accepted);
      if Admits(r, n, size) {
        assert e !in r.accepted;
      }
    }
  }

  lemma AheadRefines(w: Window, r: Reference, n: uint32, now: int, size: nat, reset: int)
    requires size <= 64 && Refines(w, r) && !Resets(w, now, reset) && Distance(n, w.top) > 0
    ensures Refines(Accept(w, n, now, size, reset).window, Advance(r, n, size))
  {
    hide Bit, ShiftLeft;
    var diff := Distance(n, w.top);
    var e := Extend(n, r.top);
    var w' := Accept(w, n, now, size, reset).window;
    var r' := Advance(r, n, size);
    forall i: nat | i < 64
      ensures Bit(w'.seen, i) <==> r'.top - i in r'.accepted
    {
      if diff < 64 {
        ShiftBits(w.seen, diff, i);
        if i >= diff { assert e - i == r.top - (i - diff); }
      } else {
        OneBit(i);
      }
    }
  }

  lemma {:induction false} OneBit(i: nat)
    ensures Bit(1, i) <==> i == 0
  {
    if i > 0 { ZeroBits(i - 1); }
  }

  lemma {:induction false} ZeroBits(i: nat)
    ensures !Bit(0, i)
    decreases i
  {
    if i > 0 { ZeroBits(i - 1); }
  }

  // The first number after a reset, taken at face value.
  lemma ResetRefines(w: Window, n: uint32, now: int, size: nat, reset: int)
    requires size <= 64 && Resets(w, now, reset)
    ensures Accept(w, n, now, size, reset).accepted
    ensures Refines(Accept(w, n, now, size, reset).window, Reference(n, {n}))
  {
    forall i: nat | i < 64 ensures Bit(1, i) <==> n - i in {n as int} { OneBit(i); }
  }

  // Runs

  datatype Arrival = Arrival(n: uint32, now: int)

  function After(w: Window, es: seq<Arrival>, size: nat, reset: int): Window
    requires size <= 64
    decreases es
  {
    if es == [] then w else After(Accept(w, es[0].n, es[0].now, size, reset).window, es[1..], size, reset)
  }

  // No arrival of the run comes after the silence that resets the window.
  predicate NoReset(w: Window, es: seq<Arrival>, size: nat, reset: int)
    requires size <= 64
    decreases es
  {
    es != [] ==>
      && !Resets(w, es[0].now, reset)
      && NoReset(Accept(w, es[0].n, es[0].now, size, reset).window, es[1..], size, reset)
  }

  function ReferenceAfter(r: Reference, es: seq<Arrival>, size: nat): Reference
    decreases es
  {
    if es == [] then r else ReferenceAfter(Advance(r, es[0].n, size), es[1..], size)
  }

  lemma {:induction false} RunRefines(w: Window, r: Reference, es: seq<Arrival>, size: nat, reset: int)
    requires size <= 64 && Refines(w, r) && NoReset(w, es, size, reset)
    ensures Refines(After(w, es, size, reset), ReferenceAfter(r, es, size))
    decreases es
  {
    hide Refines, Accept;
    if es != [] {
      StepRefines(w, r, es[0].n, es[0].now, size, reset);
      RunRefines(Accept(w, es[0].n, es[0].now, size, reset).window, Advance(r, es[0].n, size), es[1..], size, reset);
    }
  }

  // The decisions of a run.
  function Decisions(w: Window, es: seq<Arrival>, size: nat, reset: int): (ds: seq<bool>)
    requires size <= 64
    ensures |ds| == |es|
    decreases es
  {
    if es == [] then []
    else
      var d := Accept(w, es[0].n, es[0].now, size, reset);
      [d.accepted] + Decisions(d.window, es[1..], size, reset)
  }

  // The window is reset by a silence counted from the last number accepted: a number
  // refused changes nothing, and does not end the silence.
  lemma {:induction false} SilenceSinceAccepted(w: Window, es: seq<Arrival>, i: nat, now: int, size: nat, reset: int)
    requires size <= 64 && i < |es| && Decisions(w, es, size, reset)[i]
    requires forall j | i < j < |es| :: !Decisions(w, es, size, reset)[j]
    ensures Resets(After(w, es, size, reset), now, reset) <==> reset > 0 && now - es[i].now > reset
    decreases es
  {
    var d := Accept(w, es[0].n, es[0].now, size, reset);
    assert d.accepted ==> d.window.primed && d.window.last == es[0].now;
    hide Accept;
    var ds := Decisions(w, es, size, reset);
    assert ds[1..] == Decisions(d.window, es[1..], size, reset);
    if i > 0 {
      SilenceSinceAccepted(d.window, es[1..], i - 1, now, size, reset);
    } else {
      RefusedChangeNothing(d.window, es[1..], size, reset);
    }
  }

  lemma {:induction false} RefusedChangeNothing(w: Window, es: seq<Arrival>, size: nat, reset: int)
    requires size <= 64 && forall j | 0 <= j < |es| :: !Decisions(w, es, size, reset)[j]
    ensures After(w, es, size, reset) == w
    decreases es
  {
    if es != [] {
      var d := Accept(w, es[0].n, es[0].now, size, reset);
      assert Decisions(w, es, size, reset)[0] == d.accepted;
      assert Decisions(w, es, size, reset)[1..] == Decisions(d.window, es[1..], size, reset);
      RefusedChangeNothing(d.window, es[1..], size, reset);
    }
  }

  // After any run since the window was primed, the next number is accepted
  // exactly when it is ahead of every number accepted in that run or inside
  // the window and not among them.
  lemma DecisionIsReference(w: Window, start: Arrival, es: seq<Arrival>, next: Arrival, size: nat, reset: int)
    requires size <= 64 && Resets(w, start.now, reset)
    requires NoReset(Accept(w, start.n, start.now, size, reset).window, es + [next], size, reset)
    ensures
      var w0 := Accept(w, start.n, start.now, size, reset).window;
      var r := ReferenceAfter(Reference(start.n, {start.n}), es, size);
      Accept(After(w0, es, size, reset), next.n, next.now, size, reset).accepted <==> Admits(r, next.n, size)
  {
    hide Accept, Refines, Advance;
    var w0 := Accept(w, start.n, start.now, size, reset).window;
    var r0 := Reference(start.n, {start.n});
    ResetRefines(w, start.n, start.now, size, reset);
    QuietPrefix(w0, es, next, size, reset);
    RunRefines(w0, r0, es, size, reset);
    StepRefines(After(w0, es, size, reset), ReferenceAfter(r0, es, size), next.n, next.now, size, reset);
  }

  lemma {:induction false} QuietPrefix(w: Window, es: seq<Arrival>, next: Arrival, size: nat, reset: int)
    requires size <= 64 && NoReset(w, es + [next], size, reset)
    ensures NoReset(w, es, size, reset)
    ensures !Resets(After(w, es, size, reset), next.now, reset)
    decreases es
  {
    hide Accept;
    if es == [] {
      assert es + [next] == [next];
    } else {
      assert (es + [next])[1..] == es[1..] + [next];
      QuietPrefix(Accept(w, es[0].n, es[0].now, size, reset).window, es[1..], next, size, reset);
    }
  }

  lemma {:induction false} RunGrows(r: Reference, es: seq<Arrival>, size: nat)
    requires Sane(r)
    ensures var r' := ReferenceAfter(r, es, size);
      Sane(r') && r.accepted <= r'.accepted && r.top <= r'.top
    decreases es
  {
    if es != [] { RunGrows(Advance(r, es[0].n, size), es[1..], size); }
  }

  // How far the top moves over a run.
  function Travel(w: Window, es: seq<Arrival>, size: nat, reset: int): int
    requires size <= 64
    decreases es
  {
    if es == [] then 0
    else
      var w' := Accept(w, es[0].n, es[0].now, size, reset).window;
      Distance(w'.top, w.top) + Travel(w', es[1..], size, reset)
  }

  lemma {:induction false} TravelIsFull(w: Window, r: Reference, es: seq<Arrival>, size: nat, reset: int)
    requires size <= 64 && Refines(w, r) && NoReset(w, es, size, reset)
    ensures Travel(w, es, size, reset) == ReferenceAfter(r, es, size).top - r.top
    decreases es
  {
    hide Refines, Accept;
    if es != [] {
      var e := es[0];
      StepRefines(w, r, e.n, e.now, size, reset);
      StepTravels(w, r, e.n, e.now, size, reset);
      TravelIsFull(Accept(w, e.n, e.now, size, reset).window, Advance(r, e.n, size), es[1..], size, reset);
    }
  }

  lemma StepTravels(w: Window, r: Reference, n: uint32, now: int, size: nat, reset: int)
    requires size <= 64 && Refines(w, r) && !Resets(w, now, reset)
    ensures Distance(Accept(w, n, now, size, reset).window.top, w.top) == Advance(r, n, size).top - r.top
  {
    hide Bit, ShiftLeft;
  }

  // In every run since the window was primed, and without a reset, the window
  // accepts the same number a second time only when its top has moved on by
  // 2^32 - size + 1 or more since the first.
  lemma AcceptedOnce(
    w: Window, start: Arrival, es: seq<Arrival>, x: Arrival, more: seq<Arrival>, y: Arrival, size: nat, reset: int)
    requires 1 <= size <= 64 && Resets(w, start.now, reset) && x.n == y.n
    requires NoReset(Accept(w, start.n, start.now, size, reset).window, es + [x] + more + [y], size, reset)
    ensures
      var w0 := Accept(w, start.n, start.now, size, reset).window;
      var first := Accept(After(w0, es, size, reset), x.n, x.now, size, reset);
      var second := Accept(After(first.window, more, size, reset), y.n, y.now, size, reset);
      first.accepted && second.accepted ==>
        Travel(first.window, more + [y], size, reset) >= 0x1_0000_0000 - size + 1
  {
    hide Accept, Refines, Advance, Admits, Travel;
    var w0 := Accept(w, start.n, start.now, size, reset).window;
    ResetRefines(w, start.n, start.now, size, reset);
    var r0 := Reference(start.n, {start.n});
    assert es + [x] + more + [y] == es + ([x] + (more + [y]));
    QuietSplit(w0, es, x, more + [y], size, reset);
    RunRefines(w0, r0, es, size, reset);
    var wx, r := After(w0, es, size, reset), ReferenceAfter(r0, es, size);
    StepRefines(wx, r, x.n, x.now, size, reset);
    var w1, r1 := Accept(wx, x.n, x.now, size, reset).window, Advance(r, x.n, size);
    QuietPrefix(w1, more, y, size, reset);
    RunRefines(w1, r1, more, size, reset);
    var w2, r2 := After(w1, more, size, reset), ReferenceAfter(r1, more, size);
    StepRefines(w2, r2, y.n, y.now, size, reset);
    TravelIsFull(w1, r1, more + [y], size, reset);
    ReferenceSnoc(r1, more, y, size);
    RefinesSane(wx, r);
    if Admits(r, x.n, size) && Admits(r2, y.n, size) {
      NumberedOnce(r, x.n, more, size);
    }
  }

  lemma RefinesSane(w: Window, r: Reference)
    requires Refines(w, r)
    ensures Sane(r)
  {}

  lemma {:induction false} QuietSplit(
    w: Window, es: seq<Arrival>, x: Arrival, more: seq<Arrival>, size: nat, reset: int)
    requires size <= 64 && NoReset(w, es + ([x] + more), size, reset)
    ensures NoReset(w, es, size, reset)
    ensures
      var wx := After(w, es, size, reset);
      !Resets(wx, x.now, reset) && NoReset(Accept(wx, x.n, x.now, size, reset).window, more, size, reset)
    decreases es
  {
    hide Accept;
    if es == [] {
      assert es + ([x] + more) == [x] + more && ([x] + more)[1..] == more;
    } else {
      assert (es + ([x] + more))[1..] == es[1..] + ([x] + more);
      QuietSplit(Accept(w, es[0].n, es[0].now, size, reset).window, es[1..], x, more, size, reset);
    }
  }

  lemma {:induction false} ReferenceSnoc(r: Reference, es: seq<Arrival>, y: Arrival, size: nat)
    ensures ReferenceAfter(r, es + [y], size) == Advance(ReferenceAfter(r, es, size), y.n, size)
    decreases es
  {
    hide Advance;
    if es == [] {
      assert es + [y] == [y] && [y][1..] == [];
    } else {
      assert (es + [y])[1..] == es[1..] + [y];
      ReferenceSnoc(Advance(r, es[0].n, size), es[1..], y, size);
    }
  }

  // A full number is accepted at most once, and the same 32-bit number a
  // second time only when the top has moved on that far.
  lemma NumberedOnce(r: Reference, n: uint32, es: seq<Arrival>, size: nat)
    requires 1 <= size <= 64 && Sane(r)
    requires Admits(r, n, size)
    requires Admits(ReferenceAfter(Advance(r, n, size), es, size), n, size)
    ensures
      var r1 := Advance(r, n, size);
      var r2 := ReferenceAfter(r1, es, size);
      && Extend(n, r2.top) !in r2.accepted
      && Advance(r2, n, size).top - r1.top >= 0x1_0000_0000 - size + 1
  {
    var r1 := Advance(r, n, size);
    var r2 := ReferenceAfter(r1, es, size);
    RunGrows(r1, es, size);
    var e1 := Extend(n, r.top);
    var e2 := Extend(n, r2.top);
    assert e1 in r2.accepted;
    SameResidue(e1, e2);
  }

  lemma SameResidue(a: int, b: int)
    requires a % 0x1_0000_0000 == b % 0x1_0000_0000
    ensures a == b || a - b >= 0x1_0000_0000 || b - a >= 0x1_0000_0000
  {}
}
