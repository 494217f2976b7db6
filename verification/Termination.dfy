// The CommandTermination owed for one enhanced-security operate
// (server/control.go): sent by the server when the operate is accepted, by a
// handler that deferred it, or when its time is over, and never twice.

module Termination {
  import opened Options

  // An additional cause; 255, which is none, stands for success.
  type Cause = c: int | 0 <= c < 0x100

  const POSITIVE: Cause := 255
  const TIME_LIMIT_OVER: Cause := 16

  // How far the operate's request is: in the handler, accepted with the
  // deferral looked at, answered for, or refused.
  datatype Stage = InHandler | Accepted(deferredSeen: bool) | Concluded(deferredSeen: bool) | Refused

  // done is the sync.Once; sends are the terminations attempted.
  datatype State = State(done: bool, deferred: bool, timer: bool, stage: Stage, sends: seq<Cause>)

  const INITIAL := State(false, false, false, InHandler, [])

  datatype Action =
    | Defer
    | FinishDeferred(cause: Cause)
    | EndHandler(cause: Cause)
    | Conclude(operTimeout: nat)
    | TimerFires

  function Finish(s: State, cause: Cause): State
  {
    if s.done then s else s.(done := true, sends := s.sends + [cause])
  }

  function Next(s: State, a: Action): (s': State)
  {
    match a
    case Defer => s.(deferred := true)
    case FinishDeferred(cause) => if s.deferred then Finish(s, cause) else s
    case EndHandler(cause) =>
      if !s.stage.InHandler? then s
      else if cause != POSITIVE then s.(done := true, stage := Refused)
      else s.(stage := Accepted(s.deferred))
    case Conclude(operTimeout) =>
      if !s.stage.Accepted? then s
      else
        var t := s.(stage := Concluded(s.stage.deferredSeen));
        if !s.stage.deferredSeen then Finish(t, POSITIVE)
        else t.(timer := operTimeout > 0)
    case TimerFires => if s.timer then Finish(s, TIME_LIMIT_OVER) else s
  }

  function Run(actions: seq<Action>): (s: State)
    decreases |actions|
  {
    if actions == [] then INITIAL else Next(Run(actions[..|actions| - 1]), actions[|actions| - 1])
  }

  ghost predicate Inv(s: State)
  {
    && |s.sends| <= 1
    && (s.sends != [] ==> s.done)
    && (s.done ==> |s.sends| == 1 || s.stage.Refused?)
    && (s.stage.Refused? ==> s.done)
    && (s.timer ==> s.deferred)
    && (s.stage.Accepted? && s.stage.deferredSeen ==> s.deferred)
    && (s.stage.Concluded? && s.stage.deferredSeen ==> s.deferred)
    && (s.stage.Concluded? && !s.stage.deferredSeen ==> |s.sends| == 1)
    && (!s.deferred ==> s.sends == if s.stage.Concluded? then [POSITIVE] else [])
  }

  lemma {:induction false} RunKeeps(actions: seq<Action>)
    ensures Inv(Run(actions))
    decreases |actions|
  {
    if actions != [] { RunKeeps(actions[..|actions| - 1]); }
  }

  // What the handler itself finished with, having deferred the termination,
  // before it answered: read off the actions.
  function Early(actions: seq<Action>): Option<Cause>
    decreases |actions|
  {
    if actions == [] then None
    else
      var before, a := actions[..|actions| - 1], actions[|actions| - 1];
      if Early(before).Some? then Early(before)
      else if a.FinishDeferred? && Defer in before && !Answered(before) then Some(a.cause)
      else None
  }

  predicate Answered(actions: seq<Action>)
  {
    exists i | 0 <= i < |actions| :: actions[i].EndHandler?
  }

  lemma {:induction false} EarlyIsSent(actions: seq<Action>)
    ensures
      var s := Run(actions);
      && (s.stage.InHandler? <==> !Answered(actions))
      && (s.deferred <==> Defer in actions)
      && (s.stage.InHandler? || s.stage.Refused? ==>
            s.sends == if Early(actions).Some? then [Early(actions).value] else [])
      && (s.stage.InHandler? ==> s.done == (s.sends != []) && !s.timer)
      && (s.stage.Refused? ==> s.done)
    decreases |actions|
  {
    if actions != [] {
      var before, a := actions[..|actions| - 1], actions[|actions| - 1];
      EarlyIsSent(before);
      assert actions == before + [a];
      assert Answered(actions) <==> Answered(before) || a.EndHandler?;
    }
  }

  // In every run no operate attempts two terminations; one accepted without
  // deferral attempts exactly one, the positive one if it is never deferred; and
  // a refused one attempts one exactly when its handler deferred the termination
  // and finished it before it answered, and then that one.
  lemma TerminatedOnce(actions: seq<Action>)
    ensures
      var s := Run(actions);
      && |s.sends| <= 1
      && (s.stage == Concluded(false) ==> |s.sends| == 1)
      && (s.stage == Concluded(false) && !s.deferred ==> s.sends == [POSITIVE])
      && (s.stage.Refused? ==> s.sends == if Early(actions).Some? then [Early(actions).value] else [])
  {
    RunKeeps(actions);
    EarlyIsSent(actions);
  }

  // The handler that shows it: it finishes positively, and then refuses.
  lemma RefusedYetTerminated(cause: Cause)
    requires cause != POSITIVE
    ensures
      var s := Run([Defer, FinishDeferred(POSITIVE), EndHandler(cause)]);
      s.stage.Refused? && s.sends == [POSITIVE]
  {
    var actions := [Defer, FinishDeferred(POSITIVE), EndHandler(cause)];
    assert actions[..2] == [Defer, FinishDeferred(POSITIVE)] && actions[..2][..1] == [Defer];
    assert [Defer][..0] == [] && Run([Defer]) == Next(INITIAL, Defer);
  }

  // A deferred termination has come due: its handler finished it, or the timer
  // set for it fired.
  predicate Due(actions: seq<Action>)
    decreases |actions|
  {
    actions != [] &&
    var before, a := actions[..|actions| - 1], actions[|actions| - 1];
    || Due(before)
    || (a.FinishDeferred? && Defer in before)
    || (a.TimerFires? && Run(before).timer)
  }

  // In every run, an operate accepted with its termination deferred has
  // attempted exactly one once it has come due, and none before.
  lemma {:induction false} DeferredIsTerminated(actions: seq<Action>)
    ensures
      var s := Run(actions);
      && ((s.stage == Accepted(true) || s.stage == Concluded(true)) ==> |s.sends| == if Due(actions) then 1 else 0)
      && (s.stage.InHandler? ==> |s.sends| == if Due(actions) then 1 else 0)
    decreases |actions|
  {
    RunKeeps(actions);
    EarlyIsSent(actions);
    if actions != [] {
      var before := actions[..|actions| - 1];
      RunKeeps(before);
      EarlyIsSent(before);
      DeferredIsTerminated(before);
    }
  }

  // Supervision is set up exactly when an operate timeout is configured.
  lemma SupervisedByTimeout(actions: seq<Action>, operTimeout: nat)
    requires Run(actions).stage == Accepted(true)
    ensures
      var s := Run(actions + [Conclude(operTimeout)]);
      s.stage == Concluded(true) && (s.timer <==> operTimeout > 0) && s.sends == Run(actions).sends
  {
    assert (actions + [Conclude(operTimeout)])[..|actions|] == actions;
  }

  // When the timer fires first, the termination is negative, with time-limit-over.
  lemma TimedOut(actions: seq<Action>)
    requires Run(actions).timer && Run(actions).sends == []
    ensures Run(actions + [TimerFires]).sends == [16]
  {
    RunKeeps(actions);
    assert (actions + [TimerFires])[..|actions|] == actions;
    SupervisedIsAccepted(actions);
  }

  lemma {:induction false} SupervisedIsAccepted(actions: seq<Action>)
    ensures Run(actions).timer ==> Run(actions).stage == Concluded(true)
    decreases |actions|
  {
    if actions != [] { SupervisedIsAccepted(actions[..|actions| - 1]); }
  }

  // What has been sent stays the only thing sent.
  lemma {:induction false} SentIsFinal(before: seq<Action>, after: seq<Action>)
    requires Run(before).sends != [] || Run(before).stage.Refused?
    ensures Run(before + after).sends == Run(before).sends
    decreases |after|
  {
    RunKeeps(before);
    if after == [] {
      assert before + after == before;
    } else {
      var all := before + after;
      assert all[..|all| - 1] == before + after[..|after| - 1];
      SentIsFinal(before, after[..|after| - 1]);
      DoneStays(before, after[..|after| - 1]);
    }
  }

  lemma {:induction false} DoneStays(before: seq<Action>, after: seq<Action>)
    requires Run(before).done
    ensures Run(before + after).done
    decreases |after|
  {
    if after == [] {
      assert before + after == before;
    } else {
      var all := before + after;
      assert all[..|all| - 1] == before + after[..|after| - 1];
      DoneStays(before, after[..|after| - 1]);
    }
  }

  // termination, the object the handler and the timer share.
  class Owed {
    var done: bool
    var deferred: bool
    var timer: bool
    var stage: Stage
    var sends: seq<Cause>

    constructor ()
      ensures Abs() == INITIAL
    {
      done, deferred, timer, stage, sends := false, false, false, InHandler, [];
    }

    function Abs(): State
      reads this
    {
      State(done, deferred, timer, stage, sends)
    }

    method FinishWith(cause: Cause)
      modifies this
      ensures Abs() == Finish(old(Abs()), cause)
    {
      if !done {
        done := true;
        sends := sends + [cause];
      }
    }

    // The tail of the operate once the handler has answered.
    method AfterHandler(cause: Cause, operTimeout: nat)
      requires stage.InHandler?
      modifies this
      ensures Abs() == Next(Next(old(Abs()), EndHandler(cause)), Conclude(operTimeout))
    {
      if cause != POSITIVE {
        done, stage := true, Refused;
        return;
      }
      stage := Concluded(deferred);
      if deferred {
        timer := operTimeout > 0;
      } else {
        FinishWith(POSITIVE);
      }
    }
  }
}
