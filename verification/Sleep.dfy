/**
 Two sleeps built from alarm and pause: `sleep1`, whose SIGALRM handler returns
 (10-signal/8-sleep1/sleep1.c), and `sleep2`, whose handler jumps back into it
 (10-signal/9-sleep2/sleep2.c). SIGINT is another handled signal, whose handler returns; it may
 arrive at any time, and the alarm may fire at any time while it is armed.
 */
module Sleep {
  import opened Signals

  datatype Version = Sleep1 | Sleep2

  /** The calls in order; `Paused` is inside pause. `Killed`: SIGALRM came before its handler was set. */
  datatype MainPc = SetHandler | SetJump | SetAlarm | Pause | Paused(woken: bool) | Cancel | Returned | Killed

  /** `jumpSet`: setjmp was called; `crashed`: a jump without it; `jumped`: the handler has jumped. */
  datatype State = State(main: MainPc, p: Process, armed: bool, jumpSet: bool, jumped: bool, crashed: bool)

  datatype Action =
    | Interrupt          // SIGINT arrives
    | AlarmFires
    | Deliver(sig: Sig)
    | HandlerStep        // the innermost handler runs to its end
    | MainStep

  /** A call with the mask `start`; `earlier` tells whether an alarm is already outstanding. */
  function Init(start: set<Sig>, earlier: bool): State {
    State(SetHandler, Process(start, {}, []), earlier, false, false, false)
  }

  predicate Enabled(s: State, a: Action) {
    && s.main != Returned && s.main != Killed && !s.crashed
    && match a
       case Interrupt => true
       case AlarmFires => s.armed
       case Deliver(sig) => s.p.CanDeliver(sig)
       case HandlerStep => s.p.InHandler()
       case MainStep => !s.p.InHandler() && (s.main.Paused? ==> s.main.woken)
  }

  function Apply(v: Version, seconds: nat, s: State, a: Action): State
    requires Enabled(s, a)
  {
    match a
    case Interrupt => s.(p := s.p.Arrive(SigInt))
    case AlarmFires => s.(armed := false, p := s.p.Arrive(SigAlrm))
    case Deliver(sig) =>
      if sig == SigAlrm && s.main == SetHandler then s.(main := Killed) else s.(p := s.p.Deliver(sig))
    case HandlerStep =>
      if s.p.Top().sig == SigAlrm && v == Sleep2 then
        // longjmp does not restore the mask
        if s.jumpSet then s.(main := Cancel, p := s.p.Unwind(s.p.mask), jumped := true) else s.(crashed := true)
      else
        s.(p := s.p.Return(), main := if s.main.Paused? && |s.p.frames| == 1 then Paused(true) else s.main)
    case MainStep =>
      match s.main
      case SetHandler => s.(main := if v == Sleep2 then SetJump else SetAlarm)
      case SetJump => s.(main := SetAlarm, jumpSet := true)
      case SetAlarm => s.(main := Pause, armed := seconds > 0)
      case Pause => s.(main := Paused(false))
      case Paused(_) => s.(main := Cancel)
      case Cancel => s.(main := Returned, armed := false)
      case _ => s
  }

  ghost predicate Run(v: Version, seconds: nat, s: State, acts: seq<Action>, t: State)
    decreases |acts|
  {
    if acts == [] then s == t
    else Enabled(s, acts[0]) && Run(v, seconds, Apply(v, seconds, s, acts[0]), acts[1..], t)
  }

  ghost predicate Reachable(v: Version, seconds: nat, start: set<Sig>, earlier: bool, t: State) {
    exists acts :: Run(v, seconds, Init(start, earlier), acts, t)
  }

  /** Paused for good, unless some other signal comes: no alarm armed and nothing pending can be delivered. */
  predicate Stuck(s: State) {
    s.main == Paused(false) && !s.p.InHandler() && !s.armed && s.p.pending <= s.p.mask
  }

  /** What keeps `sleep2` from getting stuck: until the jump, the alarm is still to come. */
  ghost predicate Inv(s: State, start: set<Sig>) {
    && (s.main != Cancel && s.main != Returned ==> WellNested(s.p, start))
    && (s.main == Paused(false) || s.main == Pause ==>
          s.armed || SigAlrm in s.p.pending || SigAlrm in Active(s.p.frames))
  }

  lemma StepInv(seconds: nat, start: set<Sig>, s: State, a: Action)
    requires seconds > 0 && Inv(s, start) && Enabled(s, a)
    ensures Inv(Apply(Sleep2, seconds, s, a), start)
  {
    hide Active, Nested;
    if s.main != Cancel {
      match a
      case Deliver(sig) => DeliverNested(s.p, start, sig);
      case HandlerStep => ReturnNested(s.p, start);
      case _ =>
    }
  }

  lemma {:induction false} RunInv(seconds: nat, start: set<Sig>, s: State, acts: seq<Action>, t: State)
    requires seconds > 0 && Inv(s, start) && Run(Sleep2, seconds, s, acts, t)
    ensures Inv(t, start)
    decreases |acts|
  {
    if acts != [] {
      StepInv(seconds, start, s, acts[0]);
      RunInv(seconds, start, Apply(Sleep2, seconds, s, acts[0]), acts[1..], t);
    }
  }

  lemma RunStep(v: Version, seconds: nat, s: State, acts: seq<Action>, t: State, a: Action)
    requires Run(v, seconds, s, acts, t) && Enabled(t, a)
    ensures Run(v, seconds, s, acts + [a], Apply(v, seconds, t, a))
    decreases |acts|
  {
    if acts == [] {
      assert (acts + [a])[1..] == [];
    } else {
      assert (acts + [a])[1..] == acts[1..] + [a];
      RunStep(v, seconds, Apply(v, seconds, s, acts[0]), acts[1..], t, a);
    }
  }

  lemma ReachStep(v: Version, seconds: nat, start: set<Sig>, earlier: bool, s: State, a: Action)
    requires Reachable(v, seconds, start, earlier, s) && Enabled(s, a)
    ensures Reachable(v, seconds, start, earlier, Apply(v, seconds, s, a))
  {
    var acts :| Run(v, seconds, Init(start, earlier), acts, s);
    RunStep(v, seconds, Init(start, earlier), acts, s, a);
  }

  lemma ReachInit(v: Version, seconds: nat, start: set<Sig>, earlier: bool)
    ensures Reachable(v, seconds, start, earlier, Init(start, earlier))
  {
    assert Run(v, seconds, Init(start, earlier), [], Init(start, earlier));
  }

  /** To the point between alarm and pause, with nothing else happening. */
  lemma ReachPause(v: Version, seconds: nat, start: set<Sig>, earlier: bool) returns (t: State)
    ensures Reachable(v, seconds, start, earlier, t)
    ensures t == State(Pause, Process(start, {}, []), seconds > 0, v == Sleep2, false, false)
  {
    hide Reachable;
    ReachInit(v, seconds, start, earlier);
    t := Init(start, earlier);
    ReachStep(v, seconds, start, earlier, t, MainStep);
    t := Apply(v, seconds, t, MainStep);
    if v == Sleep2 {
      ReachStep(v, seconds, start, earlier, t, MainStep);
      t := Apply(v, seconds, t, MainStep);
    }
    ReachStep(v, seconds, start, earlier, t, MainStep);
    t := Apply(v, seconds, t, MainStep);
  }

  /** An alarm left over kills the process exactly if it can be taken before the handler is set. */
  lemma KilledIff(v: Version, seconds: nat, start: set<Sig>, earlier: bool)
    ensures (exists t :: Reachable(v, seconds, start, earlier, t) && t.main == Killed)
       <==> earlier && SigAlrm !in start
  {
    if earlier && SigAlrm !in start {
      ReachInit(v, seconds, start, earlier);
      var t := Init(start, earlier);
      ReachStep(v, seconds, start, earlier, t, AlarmFires);
      t := Apply(v, seconds, t, AlarmFires);
      ReachStep(v, seconds, start, earlier, t, Deliver(SigAlrm));
    } else {
      forall t | Reachable(v, seconds, start, earlier, t)
        ensures t.main != Killed
      {
        var acts :| Run(v, seconds, Init(start, earlier), acts, t);
        NoHandlers(start);
        NotKilled(v, seconds, start, Init(start, earlier), acts, t);
      }
    }
  }

  /** Before the handler is set, no SIGALRM can come. */
  ghost predicate Spared(s: State, start: set<Sig>) {
    && s.main != Killed
    && (s.main == SetHandler ==>
          WellNested(s.p, start) && (SigAlrm in start || (!s.armed && SigAlrm !in s.p.pending)))
  }

  lemma {:induction false} NotKilled(v: Version, seconds: nat, start: set<Sig>, s: State, acts: seq<Action>, t: State)
    requires Spared(s, start) && (s.main == SetHandler ==> !s.jumpSet)
    requires Run(v, seconds, s, acts, t)
    ensures t.main != Killed
    decreases |acts|
  {
    if acts != [] {
      SparedStep(v, seconds, start, s, acts[0]);
      NotKilled(v, seconds, start, Apply(v, seconds, s, acts[0]), acts[1..], t);
    }
  }

  lemma SparedStep(v: Version, seconds: nat, start: set<Sig>, s: State, a: Action)
    requires Spared(s, start) && (s.main == SetHandler ==> !s.jumpSet) && Enabled(s, a)
    ensures var t := Apply(v, seconds, s, a); Spared(t, start) && (t.main == SetHandler ==> !t.jumpSet)
  {
    hide WellNested;
    if s.main == SetHandler {
      BaseStaysBlocked(s.p, start);
      if a.Deliver? {
        DeliverNested(s.p, start, a.sig);
      } else if a.HandlerStep? {
        ReturnNested(s.p, start);
      }
      ArriveNested(s.p, start, SigInt);
      ArriveNested(s.p, start, SigAlrm);
    }
  }

  lemma ArriveNested(p: Process, base: set<Sig>, sig: Sig)
    requires WellNested(p, base)
    ensures WellNested(p.Arrive(sig), base)
  {
  }

  lemma BaseStaysBlocked(p: Process, base: set<Sig>)
    requires WellNested(p, base)
    ensures base <= p.mask
  {
    NestedMask(p.frames, base, p.mask);
  }

  /** `sleep1` can always get stuck: the alarm fires, and is handled, between alarm and pause. */
  lemma Sleep1CanStick(seconds: nat, start: set<Sig>, earlier: bool) returns (t: State)
    ensures Reachable(Sleep1, seconds, start, earlier, t) && Stuck(t)
  {
    hide Reachable;
    t := ReachPause(Sleep1, seconds, start, earlier);
    if seconds > 0 {
      ReachStep(Sleep1, seconds, start, earlier, t, AlarmFires);
      t := t.(armed := false, p := Process(start, {} + {SigAlrm}, []));
      if SigAlrm !in start {
        ReachStep(Sleep1, seconds, start, earlier, t, Deliver(SigAlrm));
        t := t.(p := t.p.Deliver(SigAlrm));
        ReachStep(Sleep1, seconds, start, earlier, t, HandlerStep);
        t := t.(p := t.p.Return());
      }
    }
    ReachStep(Sleep1, seconds, start, earlier, t, MainStep);
    t := t.(main := Paused(false));
  }

  /** `sleep2` can get stuck exactly when it sets no alarm or cannot take it. */
  lemma Sleep2SticksIff(seconds: nat, start: set<Sig>, earlier: bool)
    ensures (exists t :: Reachable(Sleep2, seconds, start, earlier, t) && Stuck(t))
       <==> seconds == 0 || SigAlrm in start
  {
    if seconds == 0 || SigAlrm in start {
      var t := Sleep2CanStick(seconds, start, earlier);
    } else {
      forall t | Reachable(Sleep2, seconds, start, earlier, t)
        ensures !Stuck(t)
      {
        var acts :| Run(Sleep2, seconds, Init(start, earlier), acts, t);
        RunInv(seconds, start, Init(start, earlier), acts, t);
        if Stuck(t) {
          NoHandlers(start);
        }
      }
    }
  }

  lemma Sleep2CanStick(seconds: nat, start: set<Sig>, earlier: bool) returns (t: State)
    requires seconds == 0 || SigAlrm in start
    ensures Reachable(Sleep2, seconds, start, earlier, t) && Stuck(t)
  {
    hide Reachable;
    t := ReachPause(Sleep2, seconds, start, earlier);
    if seconds > 0 {
      ReachStep(Sleep2, seconds, start, earlier, t, AlarmFires);
      t := Apply(Sleep2, seconds, t, AlarmFires);
    }
    ReachStep(Sleep2, seconds, start, earlier, t, MainStep);
    t := Apply(Sleep2, seconds, t, MainStep);
  }

  // The mask that `sleep2` leaves behind

  const TAKEN: set<Sig> := {SigAlrm, SigInt}

  /** An alarm is set, pending or being handled. */
  predicate AlarmAround(s: State) {
    s.armed || SigAlrm in s.p.pending || SigAlrm in Active(s.p.frames)
  }

  /** `base` is the mask the handlers interrupted: the caller's before a jump, a larger one after it. */
  ghost predicate MaskInv(s: State, start: set<Sig>, alarm: bool, base: set<Sig>) {
    && WellNested(s.p, base)
    && s.p.pending <= TAKEN && Active(s.p.frames) <= TAKEN
    && (if s.jumped then alarm && SigAlrm !in start && (base == start + {SigAlrm} || base == start + TAKEN)
        else base == start)
    && (AlarmAround(s) ==> alarm)
  }

  /** The mask under the handlers after a step: a jump makes the whole current mask the base. */
  function NextBase(s: State, a: Action, base: set<Sig>): set<Sig> {
    if a.HandlerStep? && s.p.InHandler() && s.p.Top().sig == SigAlrm && s.jumpSet then s.p.mask else base
  }

  lemma JumpMask(seconds: nat, start: set<Sig>, alarm: bool, base: set<Sig>, s: State)
    requires MaskInv(s, start, alarm, base) && Enabled(s, HandlerStep) && s.p.Top().sig == SigAlrm && s.jumpSet
    ensures MaskInv(Apply(Sleep2, seconds, s, HandlerStep), start, alarm, s.p.mask)
  {
    hide Nested;
    NestedMask(s.p.frames, base, s.p.mask);
    TopActive(s.p);
    NoHandlers(s.p.mask);
    hide Active;
  }

  lemma MaskStep(seconds: nat, start: set<Sig>, alarm: bool, base: set<Sig>, s: State, a: Action)
    requires MaskInv(s, start, alarm, base) && Enabled(s, a) && (seconds > 0 ==> alarm)
    ensures MaskInv(Apply(Sleep2, seconds, s, a), start, alarm, NextBase(s, a, base))
  {
    hide Active, Nested;
    match a
    case Deliver(sig) => DeliverNested(s.p, base, sig);
    case HandlerStep =>
      if s.p.Top().sig == SigAlrm && s.jumpSet {
        JumpMask(seconds, start, alarm, base, s);
      } else {
        ReturnNested(s.p, base);
      }
    case _ =>
  }

  lemma {:induction false} MaskRun(seconds: nat, start: set<Sig>, alarm: bool, base: set<Sig>,
                                   s: State, acts: seq<Action>, t: State) returns (last: set<Sig>)
    requires MaskInv(s, start, alarm, base) && (seconds > 0 ==> alarm) && Run(Sleep2, seconds, s, acts, t)
    ensures MaskInv(t, start, alarm, last)
    decreases |acts|
  {
    last := base;
    if acts != [] {
      MaskStep(seconds, start, alarm, base, s, acts[0]);
      hide MaskInv;
      var u := Apply(Sleep2, seconds, s, acts[0]);
      last := MaskRun(seconds, start, alarm, NextBase(s, acts[0], base), u, acts[1..], t);
    }
  }

  lemma {:induction false} ReturnedAtRest(v: Version, seconds: nat, s: State, acts: seq<Action>, t: State)
    requires Run(v, seconds, s, acts, t) && s.main != Returned
    ensures t.main == Returned ==> !t.p.InHandler() && !t.armed
    decreases |acts|
  {
    if acts != [] {
      var u := Apply(v, seconds, s, acts[0]);
      if u.main != Returned {
        ReturnedAtRest(v, seconds, u, acts[1..], t);
      }
    }
  }

  /** Either sleep turns its alarm off: a call that has returned leaves none to go off later. */
  lemma ReturnedDisarmed(v: Version, seconds: nat, start: set<Sig>, earlier: bool, t: State)
    requires Reachable(v, seconds, start, earlier, t) && t.main == Returned
    ensures !t.armed
  {
    var acts :| Run(v, seconds, Init(start, earlier), acts, t);
    ReturnedAtRest(v, seconds, Init(start, earlier), acts, t);
  }

  /**
   From the jump on SIGALRM is blocked. A call that has returned has left the mask alone if and only
   if its handler did not jump; otherwise SIGALRM stays blocked, and SIGINT too if its handler was
   aborted.
   */
  lemma JumpBlocksAlarm(seconds: nat, start: set<Sig>, earlier: bool, t: State)
    requires Reachable(Sleep2, seconds, start, earlier, t)
    ensures t.jumped ==> SigAlrm in t.p.mask && SigAlrm !in start && (seconds > 0 || earlier)
    ensures t.main == Returned ==> (t.jumped <==> t.p.mask != start)
    ensures t.p.pending <= TAKEN
    ensures t.main == Returned && t.jumped ==> t.p.mask == start + {SigAlrm} || t.p.mask == start + TAKEN
  {
    var acts :| Run(Sleep2, seconds, Init(start, earlier), acts, t);
    NoHandlers(start);
    var base := MaskRun(seconds, start, seconds > 0 || earlier, start, Init(start, earlier), acts, t);
    NestedMask(t.p.frames, base, t.p.mask);
    ReturnedAtRest(Sleep2, seconds, Init(start, earlier), acts, t);
  }

  /** The call that returns through the handler, with the alarm outstanding from before or its own. */
  lemma ReturnThroughHandler(seconds: nat, start: set<Sig>, earlier: bool) returns (t: State)
    requires SigAlrm !in start && (seconds > 0 || earlier)
    ensures Reachable(Sleep2, seconds, start, earlier, t) && t.main == Returned && t.jumped
    ensures t.p.mask == start + {SigAlrm} && t.p.pending == {}
  {
    hide Reachable;
    ReachInit(Sleep2, seconds, start, earlier);
    t := Init(start, earlier);
    ReachStep(Sleep2, seconds, start, earlier, t, MainStep);
    t := t.(main := SetJump);
    ReachStep(Sleep2, seconds, start, earlier, t, MainStep);
    t := t.(main := SetAlarm, jumpSet := true);
    if !earlier {
      ReachStep(Sleep2, seconds, start, earlier, t, MainStep);
      t := t.(main := Pause, armed := true);
    }
    ReachStep(Sleep2, seconds, start, earlier, t, AlarmFires);
    t := t.(armed := false, p := Process(start, {} + {SigAlrm}, []));
    ReachStep(Sleep2, seconds, start, earlier, t, Deliver(SigAlrm));
    t := t.(p := t.p.Deliver(SigAlrm));
    ReachStep(Sleep2, seconds, start, earlier, t, HandlerStep);
    t := t.(main := Cancel, p := t.p.Unwind(start + {SigAlrm}), jumped := true);
    ReachStep(Sleep2, seconds, start, earlier, t, MainStep);
    t := t.(main := Returned);
  }

  /** `sleep2` can return with another mask than it was called with exactly when it can take an alarm. */
  lemma Sleep2ChangesMaskIff(seconds: nat, start: set<Sig>, earlier: bool)
    ensures (exists t :: Reachable(Sleep2, seconds, start, earlier, t) && t.main == Returned && t.p.mask != start)
       <==> SigAlrm !in start && (seconds > 0 || earlier)
  {
    hide Reachable;
    if SigAlrm !in start && (seconds > 0 || earlier) {
      var t := ReturnThroughHandler(seconds, start, earlier);
    }
    forall t | Reachable(Sleep2, seconds, start, earlier, t) && t.main == Returned && t.p.mask != start
      ensures SigAlrm !in start && (seconds > 0 || earlier)
    {
      JumpBlocksAlarm(seconds, start, earlier, t);
    }
  }

  /** A call that an interrupt ends, with the mask as it was. */
  lemma ReturnByInterrupt(v: Version, seconds: nat, start: set<Sig>, earlier: bool) returns (t: State)
    requires SigInt !in start
    ensures Reachable(v, seconds, start, earlier, t) && t.main == Returned && t.p.mask == start && t.p.pending == {}
  {
    hide Reachable;
    t := ReachPause(v, seconds, start, earlier);
    ReachStep(v, seconds, start, earlier, t, MainStep);
    t := t.(main := Paused(false));
    ReachStep(v, seconds, start, earlier, t, Interrupt);
    t := t.(p := Process(start, {} + {SigInt}, []));
    t := ReturnFromPause(v, seconds, start, earlier, t, SigInt);
  }

  /** A handler that returns ends the pause, and with it the call. */
  lemma ReturnFromPause(v: Version, seconds: nat, start: set<Sig>, earlier: bool, s: State, sig: Sig) returns (t: State)
    requires Reachable(v, seconds, start, earlier, s) && s.main == Paused(false) && !s.crashed
    requires s.p == Process(start, {} + {sig}, []) && sig !in start && (sig == SigAlrm ==> v == Sleep1)
    ensures Reachable(v, seconds, start, earlier, t) && t.main == Returned && t.p.mask == start && t.p.pending == {}
  {
    hide Reachable;
    ReachStep(v, seconds, start, earlier, s, Deliver(sig));
    t := s.(p := s.p.Deliver(sig));
    ReachStep(v, seconds, start, earlier, t, HandlerStep);
    t := t.(main := Paused(true), p := t.p.Return());
    ReachStep(v, seconds, start, earlier, t, MainStep);
    t := t.(main := Cancel);
    ReachStep(v, seconds, start, earlier, t, MainStep);
    t := t.(main := Returned, armed := false);
  }

  /** `sleep1` ended by an alarm, its own or an older one. */
  lemma Sleep1ByAlarm(seconds: nat, start: set<Sig>, earlier: bool) returns (t: State)
    requires SigAlrm !in start && (seconds > 0 || earlier)
    ensures Reachable(Sleep1, seconds, start, earlier, t) && t.main == Returned
  {
    hide Reachable;
    ReachInit(Sleep1, seconds, start, earlier);
    t := Init(start, earlier);
    ReachStep(Sleep1, seconds, start, earlier, t, MainStep);
    t := t.(main := SetAlarm);
    if earlier {
      ReachStep(Sleep1, seconds, start, earlier, t, AlarmFires);
      t := t.(armed := false, p := Process(start, {} + {SigAlrm}, []));
    }
    ReachStep(Sleep1, seconds, start, earlier, t, MainStep);
    t := t.(main := Pause, armed := seconds > 0);
    ReachStep(Sleep1, seconds, start, earlier, t, MainStep);
    t := t.(main := Paused(false));
    if !earlier {
      ReachStep(Sleep1, seconds, start, earlier, t, AlarmFires);
      t := t.(armed := false, p := Process(start, {} + {SigAlrm}, []));
    }
    t := ReturnFromPause(Sleep1, seconds, start, earlier, t, SigAlrm);
  }

  /** No signal can be delivered, so nothing ends the pause. */
  predicate Deaf(s: State, start: set<Sig>) {
    && s.p.mask == start && !s.p.InHandler() && s.p.pending <= TAKEN && SigInt in start
    && (s.main == SetHandler || s.main == SetJump || s.main == SetAlarm || s.main == Pause || s.main == Paused(false))
    && (SigAlrm in start || (!s.armed && SigAlrm !in s.p.pending))
  }

  lemma {:induction false} DeafRun(v: Version, seconds: nat, start: set<Sig>, s: State, acts: seq<Action>, t: State)
    requires Deaf(s, start) && (seconds == 0 || SigAlrm in start) && Run(v, seconds, s, acts, t)
    ensures Deaf(t, start)
    decreases |acts|
  {
    if acts != [] {
      DeafRun(v, seconds, start, Apply(v, seconds, s, acts[0]), acts[1..], t);
    }
  }

  /** Either sleep can return at all exactly when it can take an alarm or an interrupt. */
  lemma ReturnsIff(v: Version, seconds: nat, start: set<Sig>, earlier: bool)
    ensures (exists t :: Reachable(v, seconds, start, earlier, t) && t.main == Returned)
       <==> SigInt !in start || (SigAlrm !in start && (seconds > 0 || earlier))
  {
    if SigInt !in start {
      var t := ReturnByInterrupt(v, seconds, start, earlier);
    } else if SigAlrm !in start && (seconds > 0 || earlier) {
      if v == Sleep1 {
        var t := Sleep1ByAlarm(seconds, start, earlier);
      } else {
        var t := ReturnThroughHandler(seconds, start, earlier);
      }
    } else {
      forall t | Reachable(v, seconds, start, earlier, t)
        ensures t.main != Returned
      {
        var acts :| Run(v, seconds, Init(start, earlier), acts, t);
        DeafRun(v, seconds, start, Init(start, earlier), acts, t);
      }
    }
  }

  /** `sleep1` never jumps, so it leaves the mask as it was. */
  lemma Sleep1KeepsMask(seconds: nat, start: set<Sig>, earlier: bool, t: State)
    requires Reachable(Sleep1, seconds, start, earlier, t) && t.main == Returned
    ensures t.p.mask == start
  {
    var acts :| Run(Sleep1, seconds, Init(start, earlier), acts, t);
    NoHandlers(start);
    Sleep1Nested(seconds, start, Init(start, earlier), acts, t);
    ReturnedAtRest(Sleep1, seconds, Init(start, earlier), acts, t);
  }

  lemma {:induction false} Sleep1Nested(seconds: nat, start: set<Sig>, s: State, acts: seq<Action>, t: State)
    requires WellNested(s.p, start) && Run(Sleep1, seconds, s, acts, t)
    ensures WellNested(t.p, start)
    decreases |acts|
  {
    hide Nested;
    if acts != [] {
      if acts[0].Deliver? {
        DeliverNested(s.p, start, acts[0].sig);
      } else if acts[0].HandlerStep? {
        ReturnNested(s.p, start);
      }
      Sleep1Nested(seconds, start, Apply(Sleep1, seconds, s, acts[0]), acts[1..], t);
    }
  }

  /** The handler of `sleep2` jumps into a buffer not yet set exactly when an earlier alarm can come in time. */
  lemma Sleep2CrashesIff(seconds: nat, start: set<Sig>, earlier: bool)
    ensures (exists t :: Reachable(Sleep2, seconds, start, earlier, t) && t.crashed)
       <==> earlier && SigAlrm !in start
  {
    if earlier && SigAlrm !in start {
      var t := Sleep2CanCrash(seconds, start);
    } else {
      forall t | Reachable(Sleep2, seconds, start, earlier, t)
        ensures !t.crashed
      {
        var acts :| Run(Sleep2, seconds, Init(start, earlier), acts, t);
        NoHandlers(start);
        SafeRun(seconds, start, Init(start, earlier), acts, t);
      }
    }
  }

  lemma Sleep2CanCrash(seconds: nat, start: set<Sig>) returns (t: State)
    requires SigAlrm !in start
    ensures Reachable(Sleep2, seconds, start, true, t) && t.crashed
  {
    hide Reachable;
    ReachInit(Sleep2, seconds, start, true);
    t := Init(start, true);
    ReachStep(Sleep2, seconds, start, true, t, MainStep);
    t := Apply(Sleep2, seconds, t, MainStep);
    ReachStep(Sleep2, seconds, start, true, t, AlarmFires);
    t := Apply(Sleep2, seconds, t, AlarmFires);
    ReachStep(Sleep2, seconds, start, true, t, Deliver(SigAlrm));
    t := Apply(Sleep2, seconds, t, Deliver(SigAlrm));
    ReachStep(Sleep2, seconds, start, true, t, HandlerStep);
    t := Apply(Sleep2, seconds, t, HandlerStep);
  }

  /** Before the buffer is set, no SIGALRM is on its way, or none can be delivered. */
  ghost predicate Safe(s: State, start: set<Sig>) {
    && !s.crashed
    && (s.main == SetAlarm || s.main == Pause || s.main.Paused? || s.main == Cancel || s.main == Returned ==> s.jumpSet)
    && (!s.jumpSet ==>
          && WellNested(s.p, start) && SigAlrm !in Active(s.p.frames)
          && (SigAlrm in start || (!s.armed && SigAlrm !in s.p.pending)))
  }

  lemma SafeSignal(start: set<Sig>, s: State, a: Action)
    requires Safe(s, start) && Enabled(s, a) && !s.jumpSet && (a.Deliver? || a.HandlerStep?)
    ensures a.Deliver? ==> a.sig != SigAlrm && Safe(s.(p := s.p.Deliver(a.sig)), start)
    ensures a.HandlerStep? ==> s.p.Top().sig != SigAlrm && Safe(s.(p := s.p.Return()), start)
  {
    hide Active, Nested;
    NestedMask(s.p.frames, start, s.p.mask);
    if a.Deliver? {
      DeliverNested(s.p, start, a.sig);
    } else {
      TopActive(s.p);
      ReturnNested(s.p, start);
    }
    hide WellNested;
  }

  lemma SafeStep(seconds: nat, start: set<Sig>, s: State, a: Action)
    requires Safe(s, start) && Enabled(s, a)
    ensures Safe(Apply(Sleep2, seconds, s, a), start)
  {
    if !s.jumpSet && (a.Deliver? || a.HandlerStep?) {
      SafeSignal(start, s, a);
    }
  }

  lemma {:induction false} SafeRun(seconds: nat, start: set<Sig>, s: State, acts: seq<Action>, t: State)
    requires Safe(s, start) && Run(Sleep2, seconds, s, acts, t)
    ensures Safe(t, start)
    decreases |acts|
  {
    if acts != [] {
      SafeStep(seconds, start, s, acts[0]);
      SafeRun(seconds, start, Apply(Sleep2, seconds, s, acts[0]), acts[1..], t);
    }
  }
}
