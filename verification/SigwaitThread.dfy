/**
 A thread that takes signals with sigwait and wakes the main thread through a condition variable
 (12-thrctl/8-thrsig/thrsig.c), over all interleavings, signal arrivals and spurious wakeups.
 */
module SigwaitThread {

  datatype Sig = SigInt | SigQuit

  /** `main` between two steps; it holds the mutex in `Holding`, `Tested` and `Leaving`. */
  datatype MainPc = Start | Holding | Tested | Waiting | Woken | Leaving | Passed | FlagReset | Done

  /** `thr_rtn`; it holds the mutex in `Locked` and `FlagSet`. */
  datatype WorkerPc = InSigwait | GotQuit | Locked | FlagSet | Unlocked | Exited

  datatype Owner = Free | Main | Worker

  datatype State = State(main: MainPc, worker: WorkerPc, owner: Owner, flag: bool,
                         pending: set<Sig>, mask: set<Sig>)

  datatype Action =
    | Arrive(sig: Sig)             // sent to the process, where every thread blocks it
    | Accept(sig: Sig)             // sigwait returns it
    | WLock | WSet | WUnlock | WSignal
    | MLock | MTest | MWait | MEarly | MUnlock | MReset | MRestore

  const WAITED: set<Sig> := {SigInt, SigQuit}

  /** After pthread_sigmask and pthread_create, started with the mask `oldmask`. */
  function Init(oldmask: set<Sig>): State {
    State(Start, InSigwait, Free, false, {}, oldmask + WAITED)
  }

  predicate Enabled(s: State, a: Action) {
    match a
    case Arrive(_) => true
    case Accept(sig) => s.worker == InSigwait && sig in s.pending
    case WLock => s.worker == GotQuit && s.owner == Free
    case WSet => s.worker == Locked
    case WUnlock => s.worker == FlagSet
    case WSignal => s.worker == Unlocked
    case MLock => (s.main == Start || s.main == Woken) && s.owner == Free
    case MTest => s.main == Holding
    case MWait => s.main == Tested
    case MEarly => s.main == Waiting
    case MUnlock => s.main == Leaving
    case MReset => s.main == Passed
    case MRestore => s.main == FlagReset
  }

  function Apply(s: State, oldmask: set<Sig>, a: Action): State
    requires Enabled(s, a)
  {
    match a
    case Arrive(sig) => s.(pending := s.pending + {sig})
    case Accept(sig) =>
      s.(pending := s.pending - {sig}, worker := if sig == SigQuit then GotQuit else InSigwait)
    case WLock => s.(owner := Worker, worker := Locked)
    case WSet => s.(flag := true, worker := FlagSet)
    case WUnlock => s.(owner := Free, worker := Unlocked)
    case WSignal => s.(worker := Exited, main := if s.main == Waiting then Woken else s.main)
    case MLock => s.(owner := Main, main := Holding)
    case MTest => s.(main := if s.flag then Leaving else Tested)
    case MWait => s.(owner := Free, main := Waiting)
    case MEarly => s.(main := Woken)
    case MUnlock => s.(owner := Free, main := Passed)
    case MReset => s.(flag := false, main := FlagReset)
    case MRestore => s.(mask := oldmask, main := Done)
  }

  ghost predicate Run(s: State, oldmask: set<Sig>, acts: seq<Action>, t: State)
    decreases |acts|
  {
    if acts == [] then s == t
    else Enabled(s, acts[0]) && Run(Apply(s, oldmask, acts[0]), oldmask, acts[1..], t)
  }

  predicate PastWait(pc: MainPc) {
    pc == Leaving || pc == Passed || pc == FlagReset || pc == Done
  }

  predicate BeforeSet(pc: WorkerPc) {
    pc == InSigwait || pc == GotQuit || pc == Locked
  }

  ghost predicate Inv(s: State, oldmask: set<Sig>) {
    && (s.owner == Main <==> s.main == Holding || s.main == Tested || s.main == Leaving)
    && (s.owner == Worker <==> s.worker == Locked || s.worker == FlagSet)
    && (BeforeSet(s.worker) ==> !s.flag && !PastWait(s.main))
    && (!BeforeSet(s.worker) ==> s.main != Tested && (s.flag || s.main == FlagReset || s.main == Done))
    && (s.worker == Exited ==> s.main != Waiting)
    && (s.main == FlagReset || s.main == Done ==> !s.flag)
    && (if s.main == Done then s.mask == oldmask else s.mask == oldmask + WAITED)
  }

  lemma {:induction false} RunInv(s: State, oldmask: set<Sig>, acts: seq<Action>, t: State)
    requires Inv(s, oldmask) && Run(s, oldmask, acts, t)
    ensures Inv(t, oldmask)
    decreases |acts|
  {
    if acts != [] {
      RunInv(Apply(s, oldmask, acts[0]), oldmask, acts[1..], t);
    }
  }

  /** `main` gets past its wait only after sigwait has returned SIGQUIT in this very run. */
  lemma {:induction false} PassedOnlyAfterQuit(s: State, oldmask: set<Sig>, acts: seq<Action>, t: State)
    requires Run(s, oldmask, acts, t) && s.worker == InSigwait && !(Accept(SigQuit) in acts)
    ensures t.worker == InSigwait
    decreases |acts|
  {
    if acts != [] {
      assert acts[0] in acts;
      PassedOnlyAfterQuit(Apply(s, oldmask, acts[0]), oldmask, acts[1..], t);
    }
  }

  /**
   Over every run: `main` waits or tests no longer once the worker has signalled, passes the wait
   only after a SIGQUIT was accepted, keeps both signals blocked until its very last step, and
   then has its original mask back.
   */
  lemma EveryRun(oldmask: set<Sig>, acts: seq<Action>, t: State)
    requires Run(Init(oldmask), oldmask, acts, t)
    ensures PastWait(t.main) ==> Accept(SigQuit) in acts
    ensures t.worker == Exited ==> t.main != Waiting && t.main != Tested
    ensures t.worker == Locked || t.worker == FlagSet ==> t.main != Holding && t.main != Tested && t.main != Leaving
    ensures t.main == FlagReset || t.main == Done ==> !t.flag
    ensures t.mask == if t.main == Done then oldmask else oldmask + WAITED
  {
    RunInv(Init(oldmask), oldmask, acts, t);
    if !(Accept(SigQuit) in acts) {
      PassedOnlyAfterQuit(Init(oldmask), oldmask, acts, t);
    }
  }

  /** A step of the program, as opposed to a signal from outside or an unasked-for wakeup. */
  predicate IsProgramStep(a: Action) {
    !a.Arrive? && !a.MEarly?
  }

  /** In every reachable state the program is at rest exactly when it is done or has no signal to act on. */
  lemma AtRestIff(oldmask: set<Sig>, acts: seq<Action>, t: State)
    requires Run(Init(oldmask), oldmask, acts, t)
    ensures (forall a :: IsProgramStep(a) ==> !Enabled(t, a))
       <==> || (t.main == Done && t.worker == Exited)
            || (t.main == Waiting && t.worker == InSigwait && t.pending == {})
  {
    RunInv(Init(oldmask), oldmask, acts, t);
    var a := NextStep(t);
    if t.main == Waiting && t.worker == InSigwait && t.pending != {} {
      var sig :| sig in t.pending;
      assert Enabled(t, Accept(sig));
    } else if !(t.main == Done && t.worker == Exited) && !(t.main == Waiting && t.worker == InSigwait) {
      assert Enabled(t, a) || (t.worker == InSigwait && t.main == Done);
    }
  }

  function NextStep(s: State): Action {
    match s.owner
    case Main => if s.main == Holding then MTest else if s.main == Tested then MWait else MUnlock
    case Worker => if s.worker == Locked then WSet else WUnlock
    case Free =>
      if s.worker == GotQuit then WLock
      else if s.worker == Unlocked then WSignal
      else if s.main == Start || s.main == Woken then MLock
      else if s.main == Passed then MReset
      else MRestore
  }

  /** What is left to do once SIGQUIT has been accepted. */
  function Rank(s: State): nat {
    (match s.worker
     case InSigwait => 5
     case GotQuit => 4
     case Locked => 3
     case FlagSet => 2
     case Unlocked => 1
     case Exited => 0)
    + match s.main
      case Start => if s.flag then 5 else 9
      case Woken => if s.flag then 5 else 9
      case Holding => if s.flag then 4 else 8
      case Tested => 7
      case Waiting => 6
      case Leaving => 3
      case Passed => 2
      case FlagReset => 1
      case Done => 0
  }

  /** Never left waiting: from the accepted SIGQUIT on, every program step leads `main` nearer its end. */
  lemma AcceptedQuitIsProgress(s: State, oldmask: set<Sig>, a: Action)
    requires Inv(s, oldmask) && s.worker != InSigwait && Enabled(s, a) && IsProgramStep(a)
    ensures Inv(Apply(s, oldmask, a), oldmask) && Apply(s, oldmask, a).worker != InSigwait
    ensures Rank(Apply(s, oldmask, a)) < Rank(s)
  {
  }
}
