/**
 Waiting for a signal handler's flag with sigsuspend (10-signal/17-waitsig/waitsig.c): SIGQUIT is
 blocked, the flag tested, and `sigsuspend(&zeromask)` both unblocks it and sleeps. All arrivals of
 SIGINT and SIGQUIT, at any moment and nested in any way, are covered.
 */
module WaitSig {
  import opened Signals

  /** `main` from its first sigprocmask on. */
  datatype MainPc = Block | Test | Suspend | Suspended(woken: bool) | ClearFlag | Restore | Exit

  /** `saved` is the variable oldmask; `resume` the mask that sigsuspend will put back. */
  datatype State = State(main: MainPc, p: Process, quitflag: bool, saved: set<Sig>, resume: set<Sig>)

  datatype Action =
    | Arrive(sig: Sig)
    | Deliver(sig: Sig)
    | HandlerBody(sig: Sig)  // the body of sig_handler, run for `sig`
    | HandlerReturn
    | MainStep               // the next call of main; the handlers run on top of it

  const HANDLED: set<Sig> := {SigInt, SigQuit}

  function Init(start: set<Sig>): State {
    State(Block, Process(start, {}, []), false, {}, {})
  }

  predicate Enabled(s: State, a: Action) {
    match a
    case Arrive(sig) => sig in HANDLED
    case Deliver(sig) => s.p.CanDeliver(sig)
    case HandlerBody(sig) => s.p.InHandler() && s.p.Top().pc == Entered && s.p.Top().sig == sig
    case HandlerReturn => s.p.InHandler() && s.p.Top().pc != Entered
    case MainStep => !s.p.InHandler() && s.main != Exit && (s.main.Suspended? ==> s.main.woken)
  }

  function Apply(s: State, a: Action): State
    requires Enabled(s, a)
  {
    match a
    case Arrive(sig) => s.(p := s.p.Arrive(sig))
    case Deliver(sig) => s.(p := s.p.Deliver(sig))
    case HandlerBody(sig) =>
      s.(p := s.p.Advance(Leaving), quitflag := s.quitflag || sig == SigQuit)
    case HandlerReturn =>
      s.(p := s.p.Return(),
         main := if s.main.Suspended? && |s.p.frames| == 1 then Suspended(true) else s.main)
    case MainStep =>
      match s.main
      case Block => s.(main := Test, saved := s.p.mask, p := s.p.(mask := s.p.mask + {SigQuit}))
      case Test => s.(main := if s.quitflag then ClearFlag else Suspend)
      case Suspend => s.(main := Suspended(false), resume := s.p.mask, p := s.p.(mask := {}))
      case Suspended(_) => s.(main := Test, p := s.p.(mask := s.resume))
      case ClearFlag => s.(main := Restore, quitflag := false)
      case Restore => s.(main := Exit, p := s.p.(mask := s.saved))
  }

  ghost predicate Run(s: State, acts: seq<Action>, t: State)
    decreases |acts|
  {
    if acts == [] then s == t
    else Enabled(s, acts[0]) && Run(Apply(s, acts[0]), acts[1..], t)
  }

  /** The mask that `main` itself has set, for each point of its code. */
  function Base(main: MainPc, start: set<Sig>): set<Sig> {
    match main
    case Block => start
    case Exit => start
    case Suspended(_) => {}
    case _ => start + {SigQuit}
  }

  /** `main` sleeps: no handler runs and none has run since it fell asleep. */
  predicate Asleep(s: State) {
    s.main == Suspended(false) && !s.p.InHandler()
  }

  ghost predicate Inv(s: State, start: set<Sig>) {
    && WellNested(s.p, Base(s.main, start))
    && Active(s.p.frames) <= HANDLED && s.p.pending <= HANDLED
    && (s.main != Block ==> s.saved == start)
    && (s.main.Suspended? ==> s.resume == start + {SigQuit})
    && (s.main == Suspend || s.main == Restore || Asleep(s) ==> !s.quitflag)
  }

  lemma MainStepMask(s: State, start: set<Sig>)
    requires Inv(s, start) && Enabled(s, MainStep) && s.p.mask == Base(s.main, start)
    ensures Apply(s, MainStep).p.mask == Base(Apply(s, MainStep).main, start)
  {
    hide WellNested, Active;
  }

  lemma MainStepInv(s: State, start: set<Sig>)
    requires Inv(s, start) && Enabled(s, MainStep)
    ensures Inv(Apply(s, MainStep), start)
  {
    hide Active, Nested;
    NestedMask([], Base(s.main, start), s.p.mask);
    MainStepMask(s, start);
    NoHandlers(Apply(s, MainStep).p.mask);
    hide Base;
  }

  lemma DeliverInv(s: State, start: set<Sig>, sig: Sig)
    requires Inv(s, start) && Enabled(s, Deliver(sig))
    ensures Inv(Apply(s, Deliver(sig)), start)
  {
    hide Active, Nested;
    NestedMask(s.p.frames, Base(s.main, start), s.p.mask);
    DeliverNested(s.p, Base(s.main, start), sig);
    hide WellNested, Base;
  }

  lemma BodyInv(s: State, start: set<Sig>, sig: Sig)
    requires Inv(s, start) && Enabled(s, HandlerBody(sig))
    ensures Inv(Apply(s, HandlerBody(sig)), start)
  {
    hide Active, Nested;
    NestedMask(s.p.frames, Base(s.main, start), s.p.mask);
    AdvanceNested(s.p, Base(s.main, start), Leaving);
    TopActive(s.p);
    assert s.main == Suspend || s.main == Restore ==> sig != SigQuit;
    hide WellNested, Base;
  }

  lemma ReturnInv(s: State, start: set<Sig>)
    requires Inv(s, start) && Enabled(s, HandlerReturn)
    ensures Inv(Apply(s, HandlerReturn), start)
  {
    hide Active, Nested;
    ReturnNested(s.p, Base(s.main, start));
    assert Base(Apply(s, HandlerReturn).main, start) == Base(s.main, start);
    hide WellNested, Base;
  }

  lemma StepInv(s: State, start: set<Sig>, a: Action)
    requires Inv(s, start) && Enabled(s, a)
    ensures Inv(Apply(s, a), start)
  {
    match a
    case Arrive(_) =>
    case Deliver(sig) => DeliverInv(s, start, sig);
    case HandlerBody(sig) => BodyInv(s, start, sig);
    case HandlerReturn => ReturnInv(s, start);
    case MainStep => MainStepInv(s, start);
  }

  lemma {:induction false} RunInv(s: State, start: set<Sig>, acts: seq<Action>, t: State)
    requires Inv(s, start) && Run(s, acts, t)
    ensures Inv(t, start)
    decreases |acts|
  {
    if acts != [] {
      StepInv(s, start, acts[0]);
      RunInv(Apply(s, acts[0]), start, acts[1..], t);
    }
  }

  /**
   Over every run, whatever arrives and when: SIGQUIT is blocked from the loop test to the sleep;
   `main` never sleeps on a flag that is already set; while it sleeps every pending signal can be
   delivered; no handler interrupts itself; and at the end the original mask is back.
   */
  lemma EveryRun(start: set<Sig>, acts: seq<Action>, t: State)
    requires Run(Init(start), acts, t)
    ensures t.main == Test || t.main == Suspend ==> SigQuit in t.p.mask
    ensures Asleep(t) ==> !t.quitflag && forall sig :: sig in t.p.pending ==> Enabled(t, Deliver(sig))
    ensures |t.p.frames| <= 2
    ensures forall i, j :: 0 <= i < j < |t.p.frames| ==> t.p.frames[i].sig != t.p.frames[j].sig
    ensures t.main == Restore ==> !t.quitflag
    ensures t.main == Exit && !t.p.InHandler() ==> t.p.mask == start
  {
    NoHandlers(start);
    RunInv(Init(start), start, acts, t);
    NestedMask(t.p.frames, Base(t.main, start), t.p.mask);
    DepthBound(t.p, Base(t.main, start), HANDLED);
  }

  /** `main` leaves its loop only after the handler has run for SIGQUIT. */
  lemma {:induction false} LoopLeftOnlyByQuit(s: State, acts: seq<Action>, t: State)
    requires Run(s, acts, t) && HandlerBody(SigQuit) !in acts && !s.quitflag
    requires s.main == Block || s.main == Test || s.main == Suspend || s.main.Suspended?
    ensures !t.quitflag
    ensures t.main == Block || t.main == Test || t.main == Suspend || t.main.Suspended?
    decreases |acts|
  {
    if acts != [] {
      assert acts[0] in acts;
      LoopLeftOnlyByQuit(Apply(s, acts[0]), acts[1..], t);
    }
  }

  /** Short of new arrivals, the process stops only at its end or asleep with nothing pending. */
  lemma AtRestIff(start: set<Sig>, acts: seq<Action>, t: State)
    requires Run(Init(start), acts, t)
    ensures (forall a :: Enabled(t, a) ==> a.Arrive?)
       <==> !t.p.InHandler()
            && if t.main == Exit then t.p.pending <= t.p.mask else Asleep(t) && t.p.pending == {}
  {
    NoHandlers(start);
    RunInv(Init(start), start, acts, t);
    if forall a :: Enabled(t, a) ==> a.Arrive? {
      var a := if t.p.InHandler() && t.p.Top().pc == Entered then HandlerBody(t.p.Top().sig) else HandlerReturn;
      assert !Enabled(t, a);
      assert !Enabled(t, MainStep);
      assert forall sig :: sig in t.p.pending && sig !in t.p.mask ==> Enabled(t, Deliver(sig));
    }
  }

  /** SIGQUIT's handler has run: the flag is set, or `main` has acted on it. */
  predicate Told(s: State) {
    s.quitflag || s.main == ClearFlag || s.main == Restore || s.main == Exit
  }

  lemma {:induction false} ToldStays(s: State, acts: seq<Action>, t: State)
    requires Told(s) && Run(s, acts, t)
    ensures Told(t)
    decreases |acts|
  {
    if acts != [] {
      ToldStays(Apply(s, acts[0]), acts[1..], t);
    }
  }

  lemma {:induction false} QuitTells(s: State, acts: seq<Action>, t: State)
    requires Run(s, acts, t) && HandlerBody(SigQuit) in acts
    ensures Told(t)
    decreases |acts|
  {
    if acts[0] == HandlerBody(SigQuit) {
      ToldStays(Apply(s, acts[0]), acts[1..], t);
    } else {
      QuitTells(Apply(s, acts[0]), acts[1..], t);
    }
  }

  /**
   The loop is left if and only if the handler has run for SIGQUIT: before that `main` is in front
   of the loop or in it, and after it the process does not stop before its end.
   */
  lemma QuitEndsLoopIff(start: set<Sig>, acts: seq<Action>, t: State)
    requires Run(Init(start), acts, t)
    ensures t.main == ClearFlag || t.main == Restore || t.main == Exit ==> HandlerBody(SigQuit) in acts
    ensures (forall a :: Enabled(t, a) ==> a.Arrive?) ==> (t.main == Exit <==> HandlerBody(SigQuit) in acts)
  {
    if HandlerBody(SigQuit) in acts {
      QuitTells(Init(start), acts, t);
      NoHandlers(start);
      RunInv(Init(start), start, acts, t);
    } else {
      LoopLeftOnlyByQuit(Init(start), acts, t);
    }
    AtRestIff(start, acts, t);
    hide Inv, Run, Enabled;
  }

  /** How far `main` is from its end once the flag is set. */
  function Rank(s: State): nat {
    match s.main
    case Block => 7
    case Suspend => 6
    case Suspended(woken) => if woken then 4 else 5
    case Test => 3
    case ClearFlag => 2
    case Restore => 1
    case Exit => 0
  }

  /** Once told, `main` comes nearer its end with each of its steps, and no other step takes it back. */
  lemma ToldIsProgress(s: State, start: set<Sig>, a: Action)
    requires Inv(s, start) && Told(s) && Enabled(s, a)
    ensures Told(Apply(s, a)) && Rank(Apply(s, a)) <= Rank(s)
    ensures a == MainStep ==> Rank(Apply(s, a)) < Rank(s)
  {
    hide WellNested;
  }
}
