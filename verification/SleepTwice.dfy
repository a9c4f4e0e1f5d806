/** Two calls of `sleep2` in a row: the second finds the mask, the alarm and the pending signals that the first left. */
module SleepTwice {
  import opened Signals
  import opened Sleep

  function NextCall(t: State): State {
    State(SetHandler, Process(t.p.mask, t.p.pending, []), t.armed, false, false, false)
  }

  ghost predicate ReachableNext(again: nat, t: State, u: State) {
    exists acts :: Run(Sleep2, again, NextCall(t), acts, u)
  }

  lemma NextInit(again: nat, t: State)
    ensures ReachableNext(again, t, NextCall(t))
  {
    assert Run(Sleep2, again, NextCall(t), [], NextCall(t));
  }

  lemma NextStep(again: nat, t: State, u: State, a: Action)
    requires ReachableNext(again, t, u) && Enabled(u, a)
    ensures ReachableNext(again, t, Apply(Sleep2, again, u, a))
  {
    var acts :| Run(Sleep2, again, NextCall(t), acts, u);
    RunStep(Sleep2, again, NextCall(t), acts, u, a);
  }

  /** A pending interrupt is taken first, so that then nothing pending can be delivered. */
  lemma NextSettles(again: nat, t: State) returns (u: State)
    requires t.p.pending <= TAKEN && (SigAlrm in t.p.mask || SigAlrm !in t.p.pending)
    ensures ReachableNext(again, t, u) && u.p.pending <= u.p.mask == t.p.mask
    ensures u == State(SetHandler, Process(t.p.mask, u.p.pending, []), t.armed, false, false, false)
  {
    hide ReachableNext;
    NextInit(again, t);
    u := NextCall(t);
    if SigInt in t.p.pending && SigInt !in t.p.mask {
      NextStep(again, t, u, Deliver(SigInt));
      u := u.(p := u.p.Deliver(SigInt));
      NextStep(again, t, u, HandlerStep);
      u := u.(p := u.p.Return());
    }
  }

  lemma NextCanStick(again: nat, t: State) returns (u: State)
    requires t.p.pending <= TAKEN && !t.armed
    requires SigAlrm in t.p.mask || (again == 0 && SigAlrm !in t.p.pending)
    ensures ReachableNext(again, t, u) && Stuck(u)
  {
    hide ReachableNext;
    u := NextSettles(again, t);
    NextStep(again, t, u, MainStep);
    u := u.(main := SetJump);
    NextStep(again, t, u, MainStep);
    u := u.(main := SetAlarm, jumpSet := true);
    NextStep(again, t, u, MainStep);
    u := u.(main := Pause, armed := again > 0);
    if again > 0 {
      NextStep(again, t, u, AlarmFires);
      u := u.(armed := false, p := u.p.Arrive(SigAlrm));
    }
    NextStep(again, t, u, MainStep);
    u := u.(main := Paused(false));
  }

  /** A SIGALRM pending from before is taken, sooner or later. */
  ghost predicate Due(s: State, mask: set<Sig>) {
    && (s.main == SetAlarm || s.main == Pause || s.main.Paused? ==> s.jumpSet)
    && (s.crashed ==> !s.main.Paused?)
    && (s.main == Killed || s.main == Cancel || s.main == Returned || s.crashed ||
        (WellNested(s.p, mask) && (SigAlrm in s.p.pending || SigAlrm in Active(s.p.frames))))
  }

  lemma DueStep(again: nat, mask: set<Sig>, s: State, a: Action)
    requires Due(s, mask) && Enabled(s, a)
    ensures Due(Apply(Sleep2, again, s, a), mask)
  {
    hide Active, Nested;
    if s.main != Cancel {
      match a
      case Deliver(sig) => DeliverNested(s.p, mask, sig);
      case HandlerStep => ReturnNested(s.p, mask);
      case MainStep => NoHandlers(s.p.mask);
      case _ =>
    }
  }

  lemma {:induction false} DueRun(again: nat, mask: set<Sig>, s: State, acts: seq<Action>, t: State)
    requires Due(s, mask) && Run(Sleep2, again, s, acts, t)
    ensures Due(t, mask)
    decreases |acts|
  {
    if acts != [] {
      DueStep(again, mask, s, acts[0]);
      hide Due;
      DueRun(again, mask, Apply(Sleep2, again, s, acts[0]), acts[1..], t);
    }
  }

  /** If the second call can take an alarm, its own or one pending, it does not get stuck. */
  lemma NextNotStuck(again: nat, t: State, u: State)
    requires SigAlrm !in t.p.mask && (again > 0 || SigAlrm in t.p.pending)
    requires ReachableNext(again, t, u)
    ensures !Stuck(u)
  {
    var acts :| Run(Sleep2, again, NextCall(t), acts, u);
    NoHandlers(t.p.mask);
    if again > 0 {
      RunInv(again, t.p.mask, NextCall(t), acts, u);
    } else {
      DueRun(again, t.p.mask, NextCall(t), acts, u);
    }
    if Stuck(u) {
      NoHandlers(u.p.mask);
    }
  }

  /** After a call that has returned, the next one can get stuck exactly in these cases. */
  lemma SecondSleepCanStick(seconds: nat, start: set<Sig>, earlier: bool, t: State, again: nat)
    requires Reachable(Sleep2, seconds, start, earlier, t) && t.main == Returned
    ensures (exists u :: ReachableNext(again, t, u) && Stuck(u))
       <==> t.jumped || SigAlrm in start || (again == 0 && SigAlrm !in t.p.pending)
  {
    hide ReachableNext, Stuck;
    JumpBlocksAlarm(seconds, start, earlier, t);
    ReturnedDisarmed(Sleep2, seconds, start, earlier, t);
    if SigAlrm in t.p.mask || (again == 0 && SigAlrm !in t.p.pending) {
      var u := NextCanStick(again, t);
    } else {
      forall u | ReachableNext(again, t, u)
        ensures !Stuck(u)
      {
        NextNotStuck(again, t, u);
      }
    }
  }

  /**
   As the first call has turned its alarm off, the second call's handler can jump into a buffer not
   yet set exactly if the first left SIGALRM pending and not blocked.
   */
  lemma SecondSleepCrashesIff(seconds: nat, start: set<Sig>, earlier: bool, t: State, again: nat)
    requires Reachable(Sleep2, seconds, start, earlier, t) && t.main == Returned
    ensures (exists u :: ReachableNext(again, t, u) && u.crashed) <==> SigAlrm !in t.p.mask && SigAlrm in t.p.pending
  {
    ReturnedDisarmed(Sleep2, seconds, start, earlier, t);
    if SigAlrm !in t.p.mask && SigAlrm in t.p.pending {
      var u := NextCanCrash(again, t);
    } else {
      forall u | ReachableNext(again, t, u)
        ensures !u.crashed
      {
        var acts :| Run(Sleep2, again, NextCall(t), acts, u);
        NoHandlers(t.p.mask);
        SafeRun(again, t.p.mask, NextCall(t), acts, u);
      }
    }
  }

  lemma NextCanCrash(again: nat, t: State) returns (u: State)
    requires SigAlrm !in t.p.mask && SigAlrm in t.p.pending
    ensures ReachableNext(again, t, u) && u.crashed
  {
    hide ReachableNext;
    NextInit(again, t);
    u := NextCall(t);
    NextStep(again, t, u, MainStep);
    u := u.(main := SetJump);
    NextStep(again, t, u, Deliver(SigAlrm));
    u := u.(p := u.p.Deliver(SigAlrm));
    NextStep(again, t, u, HandlerStep);
    u := u.(crashed := true);
  }

  /** A first call of `sleep2` returns, and a second one, called in the state it left, then sleeps for ever. */
  ghost predicate SecondSleepSticks(seconds: nat, start: set<Sig>, earlier: bool, again: nat, t: State, u: State) {
    && Reachable(Sleep2, seconds, start, earlier, t) && t.main == Returned
    && ReachableNext(again, t, u) && Stuck(u)
  }

  /**
   Two calls in a row. If the first can take an alarm, the second can always get stuck, whatever
   its argument; if not, only an interrupt can end the first, and the second gets stuck as a first
   call would.
   */
  lemma SecondSleepSticksIff(seconds: nat, start: set<Sig>, earlier: bool, again: nat)
    ensures (exists t, u :: SecondSleepSticks(seconds, start, earlier, again, t, u))
       <==> || (SigAlrm !in start && (seconds > 0 || earlier))
            || (SigInt !in start && (again == 0 || SigAlrm in start))
  {
    hide Reachable, ReachableNext, Stuck;
    if SigAlrm !in start && (seconds > 0 || earlier) {
      var t := ReturnThroughHandler(seconds, start, earlier);
      ReturnedDisarmed(Sleep2, seconds, start, earlier, t);
      var u := NextCanStick(again, t);
      assert SecondSleepSticks(seconds, start, earlier, again, t, u);
    } else if SigInt !in start && (again == 0 || SigAlrm in start) {
      var t := ReturnByInterrupt(Sleep2, seconds, start, earlier);
      ReturnedDisarmed(Sleep2, seconds, start, earlier, t);
      var u := NextCanStick(again, t);
      assert SecondSleepSticks(seconds, start, earlier, again, t, u);
    } else {
      forall t, u
        ensures !SecondSleepSticks(seconds, start, earlier, again, t, u)
      {
        if SecondSleepSticks(seconds, start, earlier, again, t, u) {
          ReturnsIff(Sleep2, seconds, start, earlier);
          JumpBlocksAlarm(seconds, start, earlier, t);
          SecondSleepCanStick(seconds, start, earlier, t, again);
        }
      }
    }
  }
}
