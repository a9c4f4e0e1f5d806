/**
 Jumping out of signal handlers (10-signal/15-sigsetjmp/sigsetjmp.c): SIGUSR1's handler ends in
 siglongjmp, which restores the mask saved by sigsetjmp; SIGUSR2's ends in longjmp, which leaves
 the mask alone (setjmp and longjmp do not touch it on Linux); SIGALRM's returns. The guards
 `canjump` and `canjump2` are tested first. All arrivals and all nestings are covered.
 */
module SigJump {
  import opened Options
  import opened Signals

  datatype MainPc = SetSigenv | SetCanjump | SetEnv | SetCanjump2 | Pausing | AfterLongjmp | Exit

  /**
   `sigenv` holds the saved mask once sigsetjmp was called, `env` tells whether setjmp was;
   `stranded` are the signals left blocked by longjmp; `crashed` is a jump to a buffer not set.
   */
  datatype State = State(main: MainPc, p: Process, canjump: bool, canjump2: bool, sigenv: Option<set<Sig>>,
                         env: bool, stranded: set<Sig>, armed: bool, crashed: bool)

  datatype Action =
    | Arrive(sig: Sig)
    | AlarmFires
    | Deliver(sig: Sig)
    | HandlerStep  // the next step of the innermost handler
    | MainStep

  const HANDLED: set<Sig> := {SigUsr1, SigUsr2, SigAlrm}

  function Init(start: set<Sig>): State {
    State(SetSigenv, Process(start, {}, []), false, false, None, false, {}, false, false)
  }

  predicate Enabled(s: State, a: Action) {
    && s.main != Exit && !s.crashed
    && match a
       case Arrive(sig) => sig in HANDLED
       case AlarmFires => s.armed
       case Deliver(sig) => s.p.CanDeliver(sig)
       case HandlerStep => s.p.InHandler()
       case MainStep => !s.p.InHandler() && s.main != Pausing
  }

  function SigLongjmp(s: State): State {
    match s.sigenv
    case None => s.(crashed := true)
    case Some(mask) => s.(main := SetCanjump, p := s.p.Unwind(mask), stranded := {})
  }

  function Longjmp(s: State): State {
    if !s.env then s.(crashed := true)
    else s.(main := AfterLongjmp, p := s.p.Unwind(s.p.mask), stranded := s.stranded + Active(s.p.frames))
  }

  function HandlerStepOf(s: State): State
    requires s.p.InHandler()
  {
    var sig := s.p.Top().sig;
    match s.p.Top().pc
    case Entered =>
      if sig == SigAlrm || (if sig == SigUsr1 then !s.canjump else !s.canjump2)
      then s.(p := s.p.Advance(Leaving))
      else s.(p := s.p.Advance(Working))
    case Working => s.(armed := true, p := s.p.Advance(Clearing))  // alarm(3), then the busy loop
    case Clearing =>
      if sig == SigUsr1 then s.(canjump := false, p := s.p.Advance(Jumping))
      else s.(canjump2 := false, p := s.p.Advance(Jumping))
    case Jumping => if sig == SigUsr1 then SigLongjmp(s) else Longjmp(s)
    case Leaving => s.(p := s.p.Return())
  }

  function Apply(s: State, a: Action): State
    requires Enabled(s, a)
  {
    match a
    case Arrive(sig) => s.(p := s.p.Arrive(sig))
    case AlarmFires => s.(armed := false, p := s.p.Arrive(SigAlrm))
    case Deliver(sig) => s.(p := s.p.Deliver(sig))
    case HandlerStep => HandlerStepOf(s)
    case MainStep =>
      match s.main
      case SetSigenv => s.(main := SetCanjump, sigenv := Some(s.p.mask))
      case SetCanjump => s.(main := SetEnv, canjump := true)
      case SetEnv => s.(main := SetCanjump2, env := true)
      case SetCanjump2 => s.(main := Pausing, canjump2 := true)
      case AfterLongjmp => s.(main := Exit)
      case _ => s
  }

  ghost predicate Run(s: State, acts: seq<Action>, t: State)
    decreases |acts|
  {
    if acts == [] then s == t
    else Enabled(s, acts[0]) && Run(Apply(s, acts[0]), acts[1..], t)
  }

  /** A handler past its guard has a buffer to jump to. */
  ghost predicate FrameOk(f: Frame, sigenv: Option<set<Sig>>, env: bool) {
    f.pc == Entered || f.pc == Leaving || (f.sig == SigUsr1 && sigenv.Some?) || (f.sig == SigUsr2 && env)
  }

  ghost predicate FramesOk(frames: seq<Frame>, sigenv: Option<set<Sig>>, env: bool) {
    forall f :: f in frames ==> FrameOk(f, sigenv, env)
  }

  ghost predicate Inv(s: State, start: set<Sig>) {
    && !s.crashed
    && WellNested(s.p, start + s.stranded)
    && Active(s.p.frames) <= HANDLED && s.p.pending <= HANDLED
    && FramesOk(s.p.frames, s.sigenv, s.env)
    && (s.sigenv.Some? ==> s.sigenv.value == start) && (s.main != SetSigenv ==> s.sigenv.Some?)
    && (s.main == SetCanjump2 ==> s.env) && (s.env ==> s.sigenv.Some?)
    && (s.canjump ==> s.sigenv.Some?) && (s.canjump2 ==> s.env)
    && (if s.main == AfterLongjmp || s.main == Exit then SigUsr2 in s.stranded else s.stranded == {})
  }

  lemma FramesOkSteps(p: Process, sigenv: Option<set<Sig>>, env: bool, pc: HandlerPc)
    requires p.InHandler() && FramesOk(p.frames, sigenv, env)
    ensures FrameOk(p.Top(), sigenv, env)
    ensures FramesOk(p.Return().frames, sigenv, env)
    ensures FrameOk(p.Top().(pc := pc), sigenv, env) ==> FramesOk(p.Advance(pc).frames, sigenv, env)
  {
  }

  lemma SignalInv(s: State, start: set<Sig>, a: Action)
    requires Inv(s, start) && Enabled(s, a) && (a.Arrive? || a.AlarmFires? || a.Deliver?)
    ensures Inv(Apply(s, a), start)
  {
    hide Active, Nested;
    if a.Deliver? {
      DeliverNested(s.p, start + s.stranded, a.sig);
      var fs := s.p.Deliver(a.sig).frames;
      assert forall f :: f in fs ==> f in s.p.frames || f.pc == Entered;
      assert FramesOk(fs, s.sigenv, s.env);
    }
    hide WellNested;
  }

  /** The handler moves on, or returns, without jumping. */
  lemma HandlerMoveInv(s: State, start: set<Sig>)
    requires Inv(s, start) && Enabled(s, HandlerStep) && s.p.Top().pc != Jumping
    ensures Inv(HandlerStepOf(s), start)
  {
    hide Active, Nested;
    var base, pc := start + s.stranded, s.p.Top().pc;
    var next := if pc == Working then Clearing else if pc == Clearing then Jumping
                else if HandlerStepOf(s).p == s.p.Advance(Working) then Working else Leaving;
    TopActive(s.p);
    FramesOkSteps(s.p, s.sigenv, s.env, next);
    AdvanceNested(s.p, base, next);
    ReturnNested(s.p, base);
    hide WellNested, FramesOk;
  }

  /** siglongjmp: to a saved environment, which brings the original mask back. */
  lemma SigLongjmpInv(s: State, start: set<Sig>)
    requires Inv(s, start) && Enabled(s, HandlerStep) && s.p.Top().pc == Jumping && s.p.Top().sig == SigUsr1
    ensures Inv(SigLongjmp(s), start)
    ensures SigLongjmp(s).p.frames == [] && SigLongjmp(s).p.mask == start
  {
    FramesOkSteps(s.p, s.sigenv, s.env, Leaving);
    NoHandlers(start);
    assert start + {} == start;
    hide Active, Nested;
  }

  /** longjmp: to a saved environment, with every signal blocked that was blocked in the handlers. */
  lemma LongjmpInv(s: State, start: set<Sig>)
    requires Inv(s, start) && Enabled(s, HandlerStep) && s.p.Top().pc == Jumping && s.p.Top().sig == SigUsr2
    ensures Inv(Longjmp(s), start)
    ensures Longjmp(s).p.frames == [] && Longjmp(s).p.mask == s.p.mask == start + s.stranded + Active(s.p.frames)
  {
    hide Active, Nested, FramesOk;
    FramesOkSteps(s.p, s.sigenv, s.env, Leaving);
    TopActive(s.p);
    NestedMask(s.p.frames, start + s.stranded, s.p.mask);
    NoHandlers(s.p.mask);
    NoFrames(Longjmp(s).sigenv, s.env);
    assert start + s.stranded + Active(s.p.frames) == start + (s.stranded + Active(s.p.frames));
  }

  lemma NoFrames(sigenv: Option<set<Sig>>, env: bool)
    ensures FramesOk([], sigenv, env)
  {
  }

  lemma JumperIsUser(s: State, start: set<Sig>)
    requires Inv(s, start) && s.p.InHandler() && s.p.Top().pc == Jumping
    ensures s.p.Top().sig == SigUsr1 || s.p.Top().sig == SigUsr2
  {
    FramesOkSteps(s.p, s.sigenv, s.env, Leaving);
  }

  lemma MainInv(s: State, start: set<Sig>)
    requires Inv(s, start) && Enabled(s, MainStep)
    ensures Inv(Apply(s, MainStep), start)
  {
    NestedMask([], start + s.stranded, s.p.mask);
    assert start + {} == start;
  }

  lemma StepInv(s: State, start: set<Sig>, a: Action)
    requires Inv(s, start) && Enabled(s, a)
    ensures Inv(Apply(s, a), start)
  {
    hide Inv;
    match a
    case MainStep => MainInv(s, start);
    case HandlerStep =>
      if s.p.Top().pc == Jumping {
        JumperIsUser(s, start);
        if s.p.Top().sig == SigUsr1 {
          SigLongjmpInv(s, start);
        } else {
          LongjmpInv(s, start);
        }
      } else {
        HandlerMoveInv(s, start);
      }
    case _ => SignalInv(s, start, a);
  }

  lemma {:induction false} RunInv(s: State, start: set<Sig>, acts: seq<Action>, t: State)
    requires Inv(s, start) && Run(s, acts, t)
    ensures Inv(t, start)
    decreases |acts|
  {
    if acts != [] {
      StepInv(s, start, acts[0]);
      RunInv(Apply(s, acts[0]), start, acts[1..], t);
    }
  }

  lemma InitInv(start: set<Sig>)
    ensures Inv(Init(start), start)
  {
    NoHandlers(start);
    assert start + {} == start;
  }

  /**
   Over every run: no handler jumps to an environment that was not saved; the mask is the original
   one plus the active handlers' signals plus those that a longjmp stranded, and some are stranded
   exactly from a longjmp until a later siglongjmp; handlers nest at most three deep.
   */
  lemma EveryRun(start: set<Sig>, acts: seq<Action>, t: State)
    requires Run(Init(start), acts, t)
    ensures !t.crashed
    ensures t.p.mask == start + t.stranded + Active(t.p.frames)
    ensures t.stranded != {} <==> t.main == AfterLongjmp || t.main == Exit
    ensures |t.p.frames| <= 3
  {
    InitInv(start);
    RunInv(Init(start), start, acts, t);
    NestedMask(t.p.frames, start + t.stranded, t.p.mask);
    DepthBound(t.p, start + t.stranded, HANDLED);
  }

  /** However deep the nesting: siglongjmp brings the saved mask back, longjmp leaves all handled signals blocked. */
  lemma JumpsAndMasks(start: set<Sig>, acts: seq<Action>, s: State)
    requires Run(Init(start), acts, s) && Enabled(s, HandlerStep) && s.p.Top().pc == Jumping
    ensures var t := Apply(s, HandlerStep);
            && t.p.frames == []
            && if s.p.Top().sig == SigUsr1 then t.main == SetCanjump && t.p.mask == start && t.stranded == {}
               else t.main == AfterLongjmp && SigUsr2 in t.p.mask
                    && t.p.mask == start + s.stranded + Active(s.p.frames)
  {
    InitInv(start);
    RunInv(Init(start), start, acts, s);
    JumperIsUser(s, start);
    TopActive(s.p);
    if s.p.Top().sig == SigUsr1 {
      SigLongjmpInv(s, start);
    } else {
      LongjmpInv(s, start);
    }
  }

  /**
   What a handler does if nothing interrupts it: SIGUSR1's and SIGUSR2's set the alarm, clear their
   guard and jump exactly if the guard is set; otherwise, like SIGALRM's, they return and change
   nothing.
   */
  lemma GuardDecides(start: set<Sig>, acts: seq<Action>, s: State) returns (t: State)
    requires Run(Init(start), acts, s) && Enabled(s, HandlerStep) && s.p.Top().pc == Entered
    ensures s.p.Top().sig == SigUsr1 && s.canjump ==>
              && Run(s, [HandlerStep, HandlerStep, HandlerStep, HandlerStep], t) && t.armed && !t.canjump
              && t.main == SetCanjump && t.p.frames == [] && t.p.mask == start
    ensures s.p.Top().sig == SigUsr2 && s.canjump2 ==>
              && Run(s, [HandlerStep, HandlerStep, HandlerStep, HandlerStep], t) && t.armed && !t.canjump2
              && t.main == AfterLongjmp && t.p.frames == [] && t.p.mask == s.p.mask && SigUsr2 in t.p.mask
    ensures !(s.p.Top().sig == SigUsr1 && s.canjump) && !(s.p.Top().sig == SigUsr2 && s.canjump2) ==>
              Run(s, [HandlerStep, HandlerStep], t) && t == s.(p := s.p.Return())
  {
    InitInv(start);
    RunInv(Init(start), start, acts, s);
    var sig := s.p.Top().sig;
    BufferIsSet(s, start);
    hide Inv, Run, Init;
    if (sig == SigUsr1 && s.canjump) || (sig == SigUsr2 && s.canjump2) {
      var s3 := RunsToJump(s);
      hide Enabled, Apply;
      t := if sig == SigUsr1 then SigLongjmp(s3) else Longjmp(s3);
    } else {
      t := s.(p := s.p.Return());
      RunsToReturn(s);
    }
  }

  /** What the invariant says of a handler whose guard is set. */
  lemma BufferIsSet(s: State, start: set<Sig>)
    requires Inv(s, start) && s.p.InHandler()
    ensures s.canjump ==> s.sigenv == Some(start)
    ensures s.canjump2 ==> s.env
    ensures s.p.Top().sig in s.p.mask && s.p.Top().sig in HANDLED
  {
    TopActive(s.p);
    NestedMask(s.p.frames, start + s.stranded, s.p.mask);
  }

  lemma RunsToReturn(s: State)
    requires Enabled(s, HandlerStep) && s.p.Top().pc == Entered
    requires !(s.p.Top().sig == SigUsr1 && s.canjump) && !(s.p.Top().sig == SigUsr2 && s.canjump2)
    requires s.p.Top().sig in HANDLED
    ensures Run(s, [HandlerStep, HandlerStep], s.(p := s.p.Return()))
  {
    hide Run;
    var s1 := s.(p := s.p.Advance(Leaving));
    AdvanceReturn(s.p, Leaving);
    assert s1 == Apply(s, HandlerStep);
    TwoSteps(s, s1, s.(p := s.p.Return()));
  }

  /** `s3` is the state right before the jump. */
  lemma RunsToJump(s: State) returns (s3: State)
    requires Enabled(s, HandlerStep) && s.p.Top().pc == Entered
    requires (s.p.Top().sig == SigUsr1 && s.canjump) || (s.p.Top().sig == SigUsr2 && s.canjump2)
    ensures var sig := s.p.Top().sig;
            && s3 == s.(p := s.p.Advance(Jumping), armed := true,
                        canjump := s.canjump && sig != SigUsr1, canjump2 := s.canjump2 && sig != SigUsr2)
            && Run(s, [HandlerStep, HandlerStep, HandlerStep, HandlerStep],
                   if sig == SigUsr1 then SigLongjmp(s3) else Longjmp(s3))
  {
    hide Run, SigLongjmp, Longjmp;
    var sig := s.p.Top().sig;
    var s1 := s.(p := s.p.Advance(Working));
    AdvanceTwice(s.p, Working, Clearing);
    AdvanceTwice(s.p, Clearing, Jumping);
    AdvanceTwice(s.p, Jumping, Jumping);
    var s2 := s.(p := s.p.Advance(Clearing), armed := true);
    s3 := s.(p := s.p.Advance(Jumping), armed := true,
             canjump := s.canjump && sig != SigUsr1, canjump2 := s.canjump2 && sig != SigUsr2);
    assert s1 == Apply(s, HandlerStep);
    assert s2 == Apply(s1, HandlerStep);
    assert s3 == Apply(s2, HandlerStep);
    FourSteps(s, s1, s2, s3, if sig == SigUsr1 then SigLongjmp(s3) else Longjmp(s3));
  }

  lemma AdvanceTwice(p: Process, pc: HandlerPc, next: HandlerPc)
    requires p.InHandler()
    ensures p.Advance(pc).InHandler() && p.Advance(pc).Top() == p.Top().(pc := pc)
    ensures p.Advance(pc).Advance(next) == p.Advance(next)
  {
  }

  lemma AdvanceReturn(p: Process, pc: HandlerPc)
    requires p.InHandler()
    ensures p.Advance(pc).InHandler() && p.Advance(pc).Top() == p.Top().(pc := pc)
    ensures p.Advance(pc).Return() == p.Return()
  {
  }

  lemma TwoSteps(s: State, s1: State, t: State)
    requires Enabled(s, HandlerStep) && s1 == Apply(s, HandlerStep)
    requires Enabled(s1, HandlerStep) && t == Apply(s1, HandlerStep)
    ensures Run(s, [HandlerStep, HandlerStep], t)
  {
    hide Apply, Enabled;
    assert Run(t, [], t);
    assert [HandlerStep][1..] == [];
    assert Run(s1, [HandlerStep], t);
    assert [HandlerStep, HandlerStep][1..] == [HandlerStep];
  }

  lemma FourSteps(s: State, s1: State, s2: State, s3: State, t: State)
    requires Enabled(s, HandlerStep) && s1 == Apply(s, HandlerStep)
    requires Enabled(s1, HandlerStep) && s2 == Apply(s1, HandlerStep)
    requires Enabled(s2, HandlerStep) && s3 == Apply(s2, HandlerStep)
    requires Enabled(s3, HandlerStep) && t == Apply(s3, HandlerStep)
    ensures Run(s, [HandlerStep, HandlerStep, HandlerStep, HandlerStep], t)
  {
    TwoSteps(s2, s3, t);
    hide Apply, Enabled;
    var two := [HandlerStep, HandlerStep];
    assert ([HandlerStep] + two)[1..] == two;
    assert Run(s1, [HandlerStep] + two, t);
    assert [HandlerStep, HandlerStep, HandlerStep, HandlerStep] == [HandlerStep] + ([HandlerStep] + two);
    assert ([HandlerStep] + ([HandlerStep] + two))[1..] == [HandlerStep] + two;
  }

  ghost predicate Reachable(start: set<Sig>, s: State) {
    exists acts :: Run(Init(start), acts, s)
  }

  lemma {:induction false} RunSnoc(s: State, acts: seq<Action>, t: State, a: Action)
    requires Run(s, acts, t) && Enabled(t, a)
    ensures Run(s, acts + [a], Apply(t, a))
    decreases |acts|
  {
    hide Apply, Enabled;
    if acts == [] {
      assert Run(Apply(t, a), [], Apply(t, a));
      assert ([] + [a])[1..] == [];
    } else {
      assert (acts + [a])[1..] == acts[1..] + [a];
      RunSnoc(Apply(s, acts[0]), acts[1..], t, a);
    }
  }

  lemma ReachStep(start: set<Sig>, s: State, a: Action)
    requires Reachable(start, s) && Enabled(s, a)
    ensures Reachable(start, Apply(s, a))
  {
    var acts :| Run(Init(start), acts, s);
    RunSnoc(Init(start), acts, s, a);
  }

  ghost predicate AboutToJump(s: State, sig: Sig) {
    Enabled(s, HandlerStep) && s.p.Top().pc == Jumping && s.p.Top().sig == sig
  }

  lemma SingleHandler(s: State, f: Frame, pc: HandlerPc)
    requires s.p.frames == [f]
    ensures s.p.InHandler() && s.p.Top() == f
    ensures s.p.Advance(pc) == Process(s.p.mask, s.p.pending, [f.(pc := pc)])
  {
  }

  /** To `pause`, with nothing else happening. */
  lemma ReachPausing(start: set<Sig>) returns (s: State)
    ensures Reachable(start, s)
    ensures s == State(Pausing, Process(start, {}, []), true, true, Some(start), true, {}, false, false)
  {
    assert Run(Init(start), [], Init(start));
    s := Init(start);
    assert Reachable(start, s);
    hide Reachable, Run;
    ReachStep(start, s, MainStep);
    s := s.(main := SetCanjump, sigenv := Some(start));
    ReachStep(start, s, MainStep);
    s := s.(main := SetEnv, canjump := true);
    ReachStep(start, s, MainStep);
    s := s.(main := SetCanjump2, env := true);
    ReachStep(start, s, MainStep);
    s := s.(main := Pausing, canjump2 := true);
  }

  /** Each of the two handlers can come to its jump exactly if its signal is not blocked from the start. */
  lemma JumpReachedIff(start: set<Sig>, sig: Sig)
    requires sig == SigUsr1 || sig == SigUsr2
    ensures (exists s :: Reachable(start, s) && AboutToJump(s, sig)) <==> sig !in start
  {
    if sig !in start {
      var s := ReachJump(start, sig);
    }
    forall s | Reachable(start, s) && AboutToJump(s, sig)
      ensures sig !in start
    {
      var acts :| Run(Init(start), acts, s);
      InitInv(start);
      RunInv(Init(start), start, acts, s);
      TopActive(s.p);
      NestedMask(s.p.frames, start + s.stranded, s.p.mask);
    }
  }

  lemma ReachHandler(start: set<Sig>, sig: Sig) returns (s: State)
    requires sig in HANDLED && sig !in start
    ensures Reachable(start, s)
    ensures s == State(Pausing, Process(start + {sig}, {}, [Frame(sig, start, Entered)]), true, true, Some(start),
                       true, {}, false, false)
  {
    hide Reachable, Run;
    s := ReachPausing(start);
    ReachStep(start, s, Arrive(sig));
    s := s.(p := Process(start, {} + {sig}, []));
    ReachStep(start, s, Deliver(sig));
    s := s.(p := s.p.Deliver(sig));
    assert s.p.pending == {} && s.p.frames == [Frame(sig, start, Entered)];
  }

  lemma ReachJump(start: set<Sig>, sig: Sig) returns (s: State)
    requires sig == SigUsr1 || sig == SigUsr2
    requires sig !in start
    ensures Reachable(start, s) && AboutToJump(s, sig)
  {
    hide Reachable, Run;
    s := ReachHandler(start, sig);
    var mask, env := start + {sig}, Some(start);
    SingleHandler(s, Frame(sig, start, Entered), Working);
    ReachStep(start, s, HandlerStep);
    s := State(Pausing, Process(mask, {}, [Frame(sig, start, Working)]), true, true, env, true, {}, false, false);
    SingleHandler(s, Frame(sig, start, Working), Clearing);
    ReachStep(start, s, HandlerStep);
    s := State(Pausing, Process(mask, {}, [Frame(sig, start, Clearing)]), true, true, env, true, {}, true, false);
    SingleHandler(s, Frame(sig, start, Clearing), Jumping);
    ReachStep(start, s, HandlerStep);
    s := State(Pausing, Process(mask, {}, [Frame(sig, start, Jumping)]), sig != SigUsr1, sig != SigUsr2, env,
               true, {}, true, false);
  }
}
