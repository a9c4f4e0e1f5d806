/**
 A region protected from SIGINT, left through sigsuspend (10-signal/16-critical/critical.c).
 SIGINT is handled; SIGUSR1 is not, so its delivery ends the process.
 */
module Critical {
  import opened Signals

  datatype MainPc = Block | Raise | Region | Suspend | Suspended(woken: bool) | Restore | Exit | Killed

  datatype State = State(main: MainPc, p: Process, saved: set<Sig>, resume: set<Sig>)

  datatype Action =
    | Arrive(sig: Sig)
    | Deliver(sig: Sig)
    | HandlerReturn
    | MainStep

  const SENT: set<Sig> := {SigInt, SigUsr1}

  function Init(start: set<Sig>): State {
    State(Block, Process(start, {}, []), {}, {})
  }

  predicate Enabled(s: State, a: Action) {
    && s.main != Killed
    && match a
       case Arrive(sig) => sig in SENT
       case Deliver(sig) => s.p.CanDeliver(sig)
       case HandlerReturn => s.p.InHandler()
       case MainStep => !s.p.InHandler() && s.main != Exit && (s.main.Suspended? ==> s.main.woken)
  }

  function Apply(s: State, a: Action): State
    requires Enabled(s, a)
  {
    match a
    case Arrive(sig) => s.(p := s.p.Arrive(sig))
    case Deliver(sig) => if sig == SigInt then s.(p := s.p.Deliver(sig)) else s.(main := Killed)
    case HandlerReturn =>
      s.(p := s.p.Return(),
         main := if s.main.Suspended? && |s.p.frames| == 1 then Suspended(true) else s.main)
    case MainStep =>
      match s.main
      case Block => s.(main := Raise, saved := s.p.mask, p := s.p.(mask := s.p.mask + {SigInt}))
      case Raise => s.(main := Region, p := s.p.Arrive(SigInt))
      case Region => s.(main := Suspend)
      case Suspend => s.(main := Suspended(false), resume := s.p.mask, p := s.p.(mask := {SigUsr1}))
      case Suspended(_) => s.(main := Restore, p := s.p.(mask := s.resume))
      case Restore => s.(main := Exit, p := s.p.(mask := s.saved))
  }

  ghost predicate Run(s: State, acts: seq<Action>, t: State)
    decreases |acts|
  {
    if acts == [] then s == t
    else Enabled(s, acts[0]) && Run(Apply(s, acts[0]), acts[1..], t)
  }

  function Base(main: MainPc, start: set<Sig>): set<Sig> {
    match main
    case Block => start
    case Exit => start
    case Suspended(_) => {SigUsr1}
    case _ => start + {SigInt}
  }

  ghost predicate Inv(s: State, start: set<Sig>) {
    && (s.main == Killed || WellNested(s.p, Base(s.main, start)))
    && Active(s.p.frames) <= {SigInt}
    && (s.main != Block && s.main != Killed ==> s.saved == start)
    && (s.main.Suspended? ==> s.resume == start + {SigInt})
    && (s.main == Region || s.main == Suspend ==> SigInt in s.p.pending)
    && (s.main == Suspended(false) && !s.p.InHandler() ==> SigInt in s.p.pending)
  }

  lemma MainStepInv(s: State, start: set<Sig>)
    requires Inv(s, start) && Enabled(s, MainStep)
    ensures Inv(Apply(s, MainStep), start)
  {
    hide Active, Nested;
    NestedMask([], Base(s.main, start), s.p.mask);
    NoHandlers(Apply(s, MainStep).p.mask);
  }

  lemma DeliverInv(s: State, start: set<Sig>, sig: Sig)
    requires Inv(s, start) && Enabled(s, Deliver(sig))
    ensures Inv(Apply(s, Deliver(sig)), start)
  {
    hide Active, Nested;
    NestedMask(s.p.frames, Base(s.main, start), s.p.mask);
    DeliverNested(s.p, Base(s.main, start), sig);
    assert s.main == Region || s.main == Suspend ==> sig != SigInt;
    if sig == SigInt {
      assert Base(Apply(s, Deliver(sig)).main, start) == Base(s.main, start);
      assert Apply(s, Deliver(sig)).p.InHandler();
    }
    hide WellNested, Base;
  }

  lemma ReturnInv(s: State, start: set<Sig>)
    requires Inv(s, start) && Enabled(s, HandlerReturn)
    ensures Inv(Apply(s, HandlerReturn), start)
  {
    hide Active, Nested;
    ReturnNested(s.p, Base(s.main, start));
    assert Base(Apply(s, HandlerReturn).main, start) == Base(s.main, start);
    hide WellNested, Base;
  }

  lemma StepInv(s: State, start: set<Sig>, a: Action)
    requires Inv(s, start) && Enabled(s, a)
    ensures Inv(Apply(s, a), start)
  {
    match a
    case Arrive(_) =>
    case Deliver(sig) => DeliverInv(s, start, sig);
    case HandlerReturn => ReturnInv(s, start);
    case MainStep => MainStepInv(s, start);
  }

  lemma {:induction false} RunInv(s: State, start: set<Sig>, acts: seq<Action>, t: State)
    requires Inv(s, start) && Run(s, acts, t)
    ensures Inv(t, start)
    decreases |acts|
  {
    if acts != [] {
      StepInv(s, start, acts[0]);
      RunInv(Apply(s, acts[0]), start, acts[1..], t);
    }
  }

  /**
   Over every run: the region runs with no handler on top of it and SIGINT blocked and pending; the
   handler that runs during the suspension has exactly SIGUSR1 and SIGINT blocked; SIGUSR1 cannot
   be delivered during the suspension; the suspension never sleeps, since the raised SIGINT can be
   delivered; and the masks printed at the four points are the ones the program announces.
   */
  lemma EveryRun(start: set<Sig>, acts: seq<Action>, t: State)
    requires Run(Init(start), acts, t)
    ensures t.main == Region ==> !t.p.InHandler() && t.p.mask == start + {SigInt} && SigInt in t.p.pending
    ensures t.main.Suspended? && t.p.InHandler() ==> |t.p.frames| == 1 && t.p.mask == {SigUsr1, SigInt}
    ensures t.main.Suspended? ==> !Enabled(t, Deliver(SigUsr1))
    ensures t.main == Suspended(false) && !t.p.InHandler() ==> Enabled(t, Deliver(SigInt))
    ensures t.main == Restore ==> t.p.mask == start + {SigInt}
    ensures t.main == Exit && !t.p.InHandler() ==> t.p.mask == start
  {
    NoHandlers(start);
    RunInv(Init(start), start, acts, t);
    hide Run, Active, Nested;
    if t.main != Killed {
      NestedMask(t.p.frames, Base(t.main, start), t.p.mask);
      DepthBound(t.p, Base(t.main, start), {SigInt});
      if t.p.InHandler() {
        TopActive(t.p);
      }
      hide WellNested;
    }
  }

  /** The region is followed by the handler: `main` gets past the suspension only after a delivery in it. */
  lemma {:induction false} SuspensionDelivers(s: State, acts: seq<Action>, t: State)
    requires Run(s, acts, t) && s.main == Suspended(false) && !s.p.InHandler()
    requires Deliver(SigInt) !in acts
    ensures t.main == Suspended(false) || t.main == Killed
    ensures t.main != Killed ==> !t.p.InHandler()
    decreases |acts|
  {
    if acts != [] {
      assert acts[0] in acts;
      var s1 := Apply(s, acts[0]);
      if s1.main != Killed {
        SuspensionDelivers(s1, acts[1..], t);
      }
    }
  }

  /** Short of new arrivals, the process stops only at its end, or killed. */
  lemma AtRestIff(start: set<Sig>, acts: seq<Action>, t: State)
    requires Run(Init(start), acts, t)
    ensures (forall a :: Enabled(t, a) ==> a.Arrive?)
       <==> t.main == Killed || (t.main == Exit && !t.p.InHandler() && t.p.pending <= t.p.mask)
  {
    NoHandlers(start);
    RunInv(Init(start), start, acts, t);
    EveryRun(start, acts, t);
    if forall a :: Enabled(t, a) ==> a.Arrive? {
      assert !Enabled(t, HandlerReturn) && !Enabled(t, MainStep) && !Enabled(t, Deliver(SigInt));
      assert t.main != Killed ==> forall sig :: sig in t.p.pending && sig !in t.p.mask ==> Enabled(t, Deliver(sig));
    }
  }

  lemma KilledInTheBeginning(start: set<Sig>) returns (acts: seq<Action>, t: State)
    requires SigUsr1 !in start
    ensures Run(Init(start), acts, t) && t.main == Killed
  {
    var s := Init(start);
    var u := s.(p := s.p.Arrive(SigUsr1));
    t := u.(main := Killed);
    assert Run(t, [], t);
    assert [Deliver(SigUsr1)][1..] == [];
    assert Run(u, [Deliver(SigUsr1)], t);
    acts := [Arrive(SigUsr1), Deliver(SigUsr1)];
    assert acts[1..] == [Deliver(SigUsr1)];
  }

  ghost predicate CanBeKilled(start: set<Sig>) {
    exists acts, t :: Run(Init(start), acts, t) && t.main == Killed
  }

  /** SIGUSR1 can kill the process exactly if it is not blocked from the start. */
  lemma KilledIff(start: set<Sig>)
    ensures CanBeKilled(start) <==> SigUsr1 !in start
  {
    if SigUsr1 !in start {
      var acts, t := KilledInTheBeginning(start);
      assert Run(Init(start), acts, t) && t.main == Killed;
    } else {
      NoHandlers(start);
      forall acts, t | Run(Init(start), acts, t)
        ensures t.main != Killed
      {
        NeverKilled(start, Init(start), acts, t);
      }
    }
  }

  lemma {:induction false} NeverKilled(start: set<Sig>, s: State, acts: seq<Action>, t: State)
    requires SigUsr1 in start && Inv(s, start) && s.main != Killed && s.p.pending <= SENT && Run(s, acts, t)
    ensures t.main != Killed
    decreases |acts|
  {
    if acts != [] {
      Usr1StaysBlocked(start, s);
      StepInv(s, start, acts[0]);
      hide Inv;
      NeverKilled(start, Apply(s, acts[0]), acts[1..], t);
    }
  }

  lemma Usr1StaysBlocked(start: set<Sig>, s: State)
    requires SigUsr1 in start && Inv(s, start) && s.main != Killed
    ensures SigUsr1 in s.p.mask
  {
    NestedMask(s.p.frames, Base(s.main, start), s.p.mask);
  }
}
