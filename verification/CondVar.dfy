/**
 The condition-variable demo (11-thread/10-cond/cond.c), for any number of waiters and of
 lock / signal / unlock rounds, over all interleavings. The flag `state` is set without the
 mutex, as in the program; waits may end early (timeout, or a spurious wakeup).
 */
module CondVar {

  /** A waiter between two of its steps; it holds the mutex in `Holding`, `Tested` and `Leaving`. */
  datatype WaiterPc = Start | Holding | Tested | Waiting | Woken | Leaving | Done

  /** The signaller; it holds the mutex in `Locked` and `Signalled`. */
  datatype SignallerPc = Sleeping | Ready | Locked | Signalled | Exited

  datatype Owner = Free | Waiter(i: nat) | Signaller

  datatype State = State(flag: bool, owner: Owner, waiters: seq<WaiterPc>, signaller: SignallerPc, signals: nat)

  datatype Action =
    | Set | SLock | Signal(woken: set<nat>) | SUnlock | SExit
    | Lock(i: nat) | Test(i: nat) | Wait(i: nat) | Unlock(i: nat)
    | Early(i: nat)  // timeout or spurious wakeup

  function Init(w: nat): State {
    State(false, Free, seq(w, _ => Start), Sleeping, 0)
  }

  /** The threads on the condition variable's wait list. */
  function WaitSet(s: State): set<nat> {
    set i: nat | i < |s.waiters| && s.waiters[i] == Waiting
  }

  predicate At(s: State, i: nat, pc: WaiterPc) {
    i < |s.waiters| && s.waiters[i] == pc
  }

  predicate Enabled(s: State, rounds: nat, a: Action) {
    match a
    case Set => s.signaller == Sleeping
    case SLock => s.signaller == Ready && s.signals < rounds && s.owner == Free
    case Signal(woken) =>
      s.signaller == Locked && woken <= WaitSet(s) && (WaitSet(s) != {} ==> woken != {})
    case SUnlock => s.signaller == Signalled
    case SExit => s.signaller == Ready && s.signals == rounds
    case Lock(i) => s.owner == Free && (At(s, i, Start) || At(s, i, Woken))
    case Test(i) => At(s, i, Holding)
    case Wait(i) => At(s, i, Tested)
    case Unlock(i) => At(s, i, Leaving)
    case Early(i) => At(s, i, Waiting)
  }

  function Move(s: State, i: nat, pc: WaiterPc): State
    requires i < |s.waiters|
  {
    s.(waiters := s.waiters[i := pc])
  }

  function Apply(s: State, rounds: nat, a: Action): State
    requires Enabled(s, rounds, a)
  {
    match a
    case Set => s.(flag := true, signaller := Ready)
    case SLock => s.(owner := Signaller, signaller := Locked)
    case Signal(woken) =>
      s.(signaller := Signalled, signals := s.signals + 1,
         waiters := seq(|s.waiters|, i requires 0 <= i < |s.waiters| => if i in woken then Woken else s.waiters[i]))
    case SUnlock => s.(owner := Free, signaller := Ready)
    case SExit => s.(signaller := Exited)
    case Lock(i) => Move(s, i, Holding).(owner := Waiter(i))
    case Test(i) => Move(s, i, if s.flag then Leaving else Tested)
    case Wait(i) => Move(s, i, Waiting).(owner := Free)
    case Unlock(i) => Move(s, i, Done).(owner := Free)
    case Early(i) => Move(s, i, Woken)
  }

  /** `acts` is a run from `s` to `t`. */
  ghost predicate Run(s: State, rounds: nat, acts: seq<Action>, t: State)
    decreases |acts|
  {
    if acts == [] then s == t
    else Enabled(s, rounds, acts[0]) && Run(Apply(s, rounds, acts[0]), rounds, acts[1..], t)
  }

  ghost predicate Reachable(w: nat, rounds: nat, t: State) {
    exists acts :: Run(Init(w), rounds, acts, t)
  }

  predicate HoldsMutex(pc: WaiterPc) {
    pc == Holding || pc == Tested || pc == Leaving
  }

  /** How many of `w` waiters `signals` rounds may leave behind. */
  function Excess(w: nat, signals: nat): nat {
    if w <= signals then 0 else w - signals
  }

  /** The mutex's owner is the one waiter, if any, that is inside its critical section. */
  ghost predicate Exclusive(s: State) {
    && (forall i: nat :: i < |s.waiters| ==> (HoldsMutex(s.waiters[i]) <==> s.owner == Waiter(i)))
    && (s.owner.Waiter? ==> s.owner.i < |s.waiters|)
  }

  /**
   A waiter passes its loop only when the flag is set; and once the signaller has held the mutex,
   no waiter is between its test and its wait.
   */
  ghost predicate Announced(s: State, i: nat) {
    i < |s.waiters| &&
    match s.waiters[i]
    case Leaving => s.flag
    case Done => s.flag
    case Tested => s.signals == 0
    case _ => true
  }

  ghost predicate Inv(s: State, w: nat, rounds: nat) {
    && |s.waiters| == w && s.signals <= rounds
    && (s.signaller == Exited ==> s.signals == rounds) && (s.signaller == Locked ==> s.signals < rounds)
    && Exclusive(s)
    && (s.owner == Signaller <==> s.signaller == Locked || s.signaller == Signalled)
    && (if s.signaller == Sleeping then s.signals == 0 && !s.flag else s.flag)
    && (forall i: nat :: i < w ==> Announced(s, i))
    && |WaitSet(s)| <= Excess(w, s.signals)
  }

  /** A set of numbers below `n` has at most `n` of them. */
  lemma {:induction false} BoundedSet(n: nat, s: set<nat>)
    requires forall i :: i in s ==> i < n
    ensures |s| <= n
  {
    if n == 0 {
      assert s == {};
    } else {
      BoundedSet(n - 1, s - {n - 1});
      assert |s| <= |s - {n - 1}| + 1;
    }
  }

  lemma InitInv(w: nat, rounds: nat)
    ensures Inv(Init(w), w, rounds)
  {
    assert WaitSet(Init(w)) == {};
  }

  lemma SignalInv(s: State, w: nat, rounds: nat, woken: set<nat>)
    requires Inv(s, w, rounds) && Enabled(s, rounds, Signal(woken))
    ensures Inv(Apply(s, rounds, Signal(woken)), w, rounds)
  {
    var t := Apply(s, rounds, Signal(woken));
    assert WaitSet(t) == WaitSet(s) - woken;
    assert |WaitSet(s) - woken| == |WaitSet(s)| - |woken|;
    assert WaitSet(s) != {} ==> |woken| >= 1;
    assert forall i: nat :: i < w ==> !HoldsMutex(s.waiters[i]);
    forall i: nat | i < w
      ensures Announced(t, i)
    {
      assert Announced(s, i);
    }
  }

  predicate IsWaiters(a: Action) {
    a.Lock? || a.Test? || a.Wait? || a.Unlock? || a.Early?
  }

  /** Where a waiter's step takes it. */
  function Target(s: State, a: Action): WaiterPc
    requires IsWaiters(a)
  {
    match a
    case Lock(_) => Holding
    case Test(_) => if s.flag then Leaving else Tested
    case Wait(_) => Waiting
    case Unlock(_) => Done
    case Early(_) => Woken
  }

  lemma WaiterStep(s: State, rounds: nat, a: Action)
    requires IsWaiters(a) && Enabled(s, rounds, a)
    ensures var t := Apply(s, rounds, a);
            && t.waiters == s.waiters[a.i := Target(s, a)]
            && WaitSet(t) == (if a.Wait? then WaitSet(s) + {a.i} else WaitSet(s) - {a.i})
            && (t.flag, t.signaller, t.signals) == (s.flag, s.signaller, s.signals)
            && t.owner == (if a.Lock? then Waiter(a.i) else if a.Wait? || a.Unlock? then Free else s.owner)
  {
  }

  lemma WaiterExclusive(s: State, rounds: nat, a: Action)
    requires Exclusive(s) && IsWaiters(a) && Enabled(s, rounds, a)
    ensures Exclusive(Apply(s, rounds, a))
    ensures At(s, a.i, Holding) || At(s, a.i, Tested) || At(s, a.i, Leaving) ==> s.owner == Waiter(a.i)
  {
  }

  lemma WaiterBound(s: State, w: nat, rounds: nat, a: Action)
    requires |s.waiters| == w && IsWaiters(a) && Enabled(s, rounds, a)
    requires a.Wait? ==> s.signals == 0
    requires |WaitSet(s)| <= Excess(w, s.signals)
    ensures |WaitSet(Apply(s, rounds, a))| <= Excess(w, s.signals)
  {
    WaiterStep(s, rounds, a);
    if a.Wait? {
      BoundedSet(w, WaitSet(s) + {a.i});
    } else {
      assert |WaitSet(s) - {a.i}| <= |WaitSet(s)|;
    }
  }

  lemma WaiterInv(s: State, w: nat, rounds: nat, a: Action)
    requires Inv(s, w, rounds) && IsWaiters(a) && Enabled(s, rounds, a)
    ensures Inv(Apply(s, rounds, a), w, rounds)
  {
    hide Exclusive, WaitSet;
    assert Announced(s, a.i);
    WaiterBound(s, w, rounds, a);
    WaiterExclusive(s, rounds, a);
    WaiterStep(s, rounds, a);
    forall i: nat | i < w
      ensures Announced(Apply(s, rounds, a), i)
    {
      assert Announced(s, i);
    }
  }

  lemma StepInv(s: State, w: nat, rounds: nat, a: Action)
    requires Inv(s, w, rounds) && Enabled(s, rounds, a)
    ensures Inv(Apply(s, rounds, a), w, rounds)
  {
    if IsWaiters(a) {
      WaiterInv(s, w, rounds, a);
    } else if a.Signal? {
      SignalInv(s, w, rounds, a.woken);
    } else {
      assert WaitSet(Apply(s, rounds, a)) == WaitSet(s);
      forall i: nat | i < w
        ensures Announced(Apply(s, rounds, a), i)
      {
        assert Announced(s, i);
      }
    }
  }

  lemma {:induction false} RunInv(s: State, w: nat, rounds: nat, acts: seq<Action>, t: State)
    requires Inv(s, w, rounds) && Run(s, rounds, acts, t)
    ensures Inv(t, w, rounds)
    decreases |acts|
  {
    if acts != [] {
      StepInv(s, w, rounds, acts[0]);
      RunInv(Apply(s, rounds, acts[0]), w, rounds, acts[1..], t);
    }
  }

  /** No lost wakeup: each round takes a waiter off the list, so few are left when the signaller exits. */
  lemma WaitersLeftAtExit(w: nat, rounds: nat, t: State)
    requires Reachable(w, rounds, t) && t.signaller == Exited
    ensures |WaitSet(t)| <= Excess(w, rounds)
    ensures w <= rounds ==> WaitSet(t) == {}
  {
    var acts :| Run(Init(w), rounds, acts, t);
    InitInv(w, rounds);
    RunInv(Init(w), w, rounds, acts, t);
  }

  /** A waiter passes its loop only when the flag is set, and no two threads are inside the mutex. */
  lemma WaitersAreSafe(w: nat, rounds: nat, t: State)
    requires Reachable(w, rounds, t)
    ensures |t.waiters| == w
    ensures forall i :: 0 <= i < w && (t.waiters[i] == Leaving || t.waiters[i] == Done) ==> t.flag
    ensures forall i, j :: 0 <= i < j < w && t.waiters[i] in {Holding, Tested, Leaving} ==>
                             t.waiters[j] !in {Holding, Tested, Leaving}
    ensures forall i :: 0 <= i < w && t.waiters[i] in {Holding, Tested, Leaving} ==>
                          t.signaller != Locked && t.signaller != Signalled
    ensures t.flag <==> t.signaller != Sleeping
  {
    InitInv(w, rounds);
    var acts :| Run(Init(w), rounds, acts, t);
    RunInv(Init(w), w, rounds, acts, t);
    hide Run, WaitSet, Excess, Reachable;
    forall i | 0 <= i < w
      ensures t.waiters[i] == Leaving || t.waiters[i] == Done ==> t.flag
    {
      assert Announced(t, i);
    }
  }

  /** Some waiter sleeps, and only a timeout or a spurious wakeup can ever happen. */
  ghost predicate Stranded(s: State, rounds: nat) {
    WaitSet(s) != {} && forall a :: Enabled(s, rounds, a) ==> a.Early?
  }

  /** Until the signaller has exited, some thread can step without an early wakeup. */
  lemma SomeStep(s: State, w: nat, rounds: nat) returns (a: Action)
    requires Inv(s, w, rounds) && s.signaller != Exited
    ensures Enabled(s, rounds, a) && !a.Early?
  {
    match s.owner
    case Waiter(i) =>
      a := if At(s, i, Holding) then Test(i) else if At(s, i, Tested) then Wait(i) else Unlock(i);
    case Signaller =>
      a := if s.signaller == Locked then Signal(WaitSet(s)) else SUnlock;
    case Free =>
      a := if s.signaller == Sleeping then Set else if s.signals < rounds then SLock else SExit;
  }

  lemma {:induction false} RunConcat(s: State, rounds: nat, a: seq<Action>, t: State, b: seq<Action>, u: State)
    requires Run(s, rounds, a, t) && Run(t, rounds, b, u)
    ensures Run(s, rounds, a + b, u)
    decreases |a|
  {
    if a == [] {
      assert a + b == b;
    } else {
      RunConcat(Apply(s, rounds, a[0]), rounds, a[1..], t, b, u);
      assert (a + b)[1..] == a[1..] + b;
    }
  }

  /** Waiters `0..done` have finished, `done..woken` were woken, `woken..waiting` wait, the rest have not begun. */
  function Row(w: nat, done: nat, woken: nat, waiting: nat): seq<WaiterPc> {
    seq(w, i => if i < done then Done else if i < woken then Woken else if i < waiting then Waiting else Start)
  }

  lemma {:induction false} AllGoToSleep(w: nat, rounds: nat, n: nat) returns (acts: seq<Action>)
    requires n <= w
    ensures Run(Init(w), rounds, acts, State(false, Free, Row(w, 0, 0, n), Sleeping, 0))
  {
    if n == 0 {
      acts := [];
      assert Row(w, 0, 0, 0) == Init(w).waiters;
    } else {
      acts := AllGoToSleep(w, rounds, n - 1);
      var i := n - 1;
      var s := State(false, Free, Row(w, 0, 0, i), Sleeping, 0);
      var t := State(false, Free, Row(w, 0, 0, n), Sleeping, 0);
      var s1 := Apply(s, rounds, Lock(i));
      var s2 := Apply(s1, rounds, Test(i));
      var s3 := Apply(s2, rounds, Wait(i));
      assert s3.waiters == t.waiters;
      RunThree(s, rounds, Lock(i), Test(i), Wait(i));
      RunConcat(Init(w), rounds, acts, s, [Lock(i), Test(i), Wait(i)], t);
      acts := acts + [Lock(i), Test(i), Wait(i)];
    }
  }

  lemma RunThree(s: State, rounds: nat, a: Action, b: Action, c: Action)
    requires Enabled(s, rounds, a) && Enabled(Apply(s, rounds, a), rounds, b)
    requires Enabled(Apply(Apply(s, rounds, a), rounds, b), rounds, c)
    ensures Run(s, rounds, [a, b, c], Apply(Apply(Apply(s, rounds, a), rounds, b), rounds, c))
  {
    assert [a, b, c][1..] == [b, c] && [b, c][1..] == [c] && [c][1..] == [];
    var s3 := Apply(Apply(Apply(s, rounds, a), rounds, b), rounds, c);
    assert Run(s3, rounds, [], s3);
    assert Run(Apply(Apply(s, rounds, a), rounds, b), rounds, [c], s3);
    assert Run(Apply(s, rounds, a), rounds, [b, c], s3);
  }

  /** Each round may wake a single waiter. */
  lemma {:induction false} RoundsWakeOneEach(w: nat, rounds: nat, k: nat) returns (acts: seq<Action>)
    requires k <= rounds < w
    ensures Run(State(true, Free, Row(w, 0, 0, w), Ready, 0), rounds, acts,
                State(true, Free, Row(w, 0, k, w), Ready, k))
  {
    if k == 0 {
      acts := [];
    } else {
      acts := RoundsWakeOneEach(w, rounds, k - 1);
      var s := State(true, Free, Row(w, 0, k - 1, w), Ready, k - 1);
      var t := State(true, Free, Row(w, 0, k, w), Ready, k);
      var s1 := Apply(s, rounds, SLock);
      assert k - 1 in WaitSet(s1);
      var s2 := Apply(s1, rounds, Signal({k - 1}));
      assert s2.waiters == t.waiters;
      RunThree(s, rounds, SLock, Signal({k - 1}), SUnlock);
      RunConcat(State(true, Free, Row(w, 0, 0, w), Ready, 0), rounds, acts, s, [SLock, Signal({k - 1}), SUnlock], t);
      acts := acts + [SLock, Signal({k - 1}), SUnlock];
    }
  }

  lemma WokenOneFinishes(w: nat, rounds: nat, i: nat)
    requires i < rounds < w
    ensures Run(State(true, Free, Row(w, i, rounds, w), Exited, rounds), rounds, [Lock(i), Test(i), Unlock(i)],
                State(true, Free, Row(w, i + 1, rounds, w), Exited, rounds))
  {
    hide Run;
    var s := State(true, Free, Row(w, i, rounds, w), Exited, rounds);
    var s1 := s.(owner := Waiter(i), waiters := s.waiters[i := Holding]);
    assert s1 == Apply(s, rounds, Lock(i));
    var s2 := s1.(waiters := s.waiters[i := Leaving]);
    assert s2 == Apply(s1, rounds, Test(i));
    var s3 := s2.(owner := Free, waiters := s.waiters[i := Done]);
    assert s3 == Apply(s2, rounds, Unlock(i));
    assert s3.waiters == Row(w, i + 1, rounds, w);
    RunThree(s, rounds, Lock(i), Test(i), Unlock(i));
  }

  lemma {:induction false} WokenOnesFinish(w: nat, rounds: nat, n: nat) returns (acts: seq<Action>)
    requires n <= rounds < w
    ensures Run(State(true, Free, Row(w, 0, rounds, w), Exited, rounds), rounds, acts,
                State(true, Free, Row(w, n, rounds, w), Exited, rounds))
  {
    if n == 0 {
      acts := [];
    } else {
      hide Run, Row;
      acts := WokenOnesFinish(w, rounds, n - 1);
      var i := n - 1;
      var s := State(true, Free, Row(w, i, rounds, w), Exited, rounds);
      var t := State(true, Free, Row(w, n, rounds, w), Exited, rounds);
      WokenOneFinishes(w, rounds, i);
      RunConcat(State(true, Free, Row(w, 0, rounds, w), Exited, rounds), rounds, acts, s,
                [Lock(i), Test(i), Unlock(i)], t);
      acts := acts + [Lock(i), Test(i), Unlock(i)];
    }
  }

  lemma RunThenOne(s: State, rounds: nat, acts: seq<Action>, t: State, a: Action)
    requires Run(s, rounds, acts, t) && Enabled(t, rounds, a)
    ensures Run(s, rounds, acts + [a], Apply(t, rounds, a))
  {
    assert [a][1..] == [];
    RunConcat(s, rounds, acts, t, [a], Apply(t, rounds, a));
  }

  /** With fewer rounds than waiters there is a run that leaves `w - rounds` waiters asleep for good. */
  lemma TooFewRoundsStrand(w: nat, rounds: nat) returns (t: State)
    requires rounds < w
    ensures Reachable(w, rounds, t) && Stranded(t, rounds) && |WaitSet(t)| == w - rounds
  {
    hide Run;
    var acts := AllGoToSleep(w, rounds, w);
    var s := State(false, Free, Row(w, 0, 0, w), Sleeping, 0);
    RunThenOne(Init(w), rounds, acts, s, Set);
    acts, s := acts + [Set], Apply(s, rounds, Set);
    var more := RoundsWakeOneEach(w, rounds, rounds);
    t := State(true, Free, Row(w, 0, rounds, w), Ready, rounds);
    RunConcat(Init(w), rounds, acts, s, more, t);
    acts, s := acts + more, t;
    RunThenOne(Init(w), rounds, acts, s, SExit);
    acts, s := acts + [SExit], Apply(s, rounds, SExit);
    more := WokenOnesFinish(w, rounds, rounds);
    t := State(true, Free, Row(w, rounds, rounds, w), Exited, rounds);
    RunConcat(Init(w), rounds, acts, s, more, t);
    RowWaits(w, rounds);
    RowIsStranded(w, rounds);
  }

  lemma RowWaits(w: nat, rounds: nat)
    requires rounds < w
    ensures |WaitSet(State(true, Free, Row(w, rounds, rounds, w), Exited, rounds))| == w - rounds
  {
    assert WaitSet(State(true, Free, Row(w, rounds, rounds, w), Exited, rounds)) == Range(rounds, w);
  }

  lemma RowIsStranded(w: nat, rounds: nat)
    requires rounds < w
    ensures Stranded(State(true, Free, Row(w, rounds, rounds, w), Exited, rounds), rounds)
  {
    var t := State(true, Free, Row(w, rounds, rounds, w), Exited, rounds);
    assert forall i: nat :: i < w ==> t.waiters[i] == if i < rounds then Done else Waiting;
    assert rounds in WaitSet(t);
  }

  function Range(lo: nat, hi: nat): (r: set<nat>)
    requires lo <= hi
    ensures |r| == hi - lo && forall i :: i in r <==> lo <= i < hi
  {
    if lo == hi then {} else Range(lo, hi - 1) + {hi - 1}
  }

  /** A waiter can be stranded exactly when there are more waiters than rounds. */
  lemma StrandedIffTooFewRounds(w: nat, rounds: nat)
    ensures (exists t :: Reachable(w, rounds, t) && Stranded(t, rounds)) <==> rounds < w
  {
    if rounds < w {
      var t := TooFewRoundsStrand(w, rounds);
    }
    forall t | Reachable(w, rounds, t) && Stranded(t, rounds)
      ensures rounds < w
    {
      var acts :| Run(Init(w), rounds, acts, t);
      InitInv(w, rounds);
      RunInv(Init(w), w, rounds, acts, t);
      if t.signaller != Exited {
        var a := SomeStep(t, w, rounds);
      }
      WaitersLeftAtExit(w, rounds, t);
    }
  }

  /** Progress left to a waiter once the flag is set and the wait list is empty. */
  function Rank(pc: WaiterPc): nat {
    match pc
    case Start => 3
    case Woken => 3
    case Holding => 2
    case Leaving => 1
    case _ => 0
  }

  function TotalRank(ws: seq<WaiterPc>): nat {
    if ws == [] then 0 else Rank(ws[0]) + TotalRank(ws[1..])
  }

  lemma {:induction false} RankMove(ws: seq<WaiterPc>, i: nat, pc: WaiterPc)
    requires i < |ws|
    ensures TotalRank(ws[i := pc]) == TotalRank(ws) - Rank(ws[i]) + Rank(pc)
  {
    if i == 0 {
      assert ws[0 := pc][1..] == ws[1..];
    } else {
      RankMove(ws[1..], i - 1, pc);
      assert ws[i := pc][1..] == ws[1..][i - 1 := pc];
    }
  }

  lemma WaiterIsListed(s: State, i: nat)
    requires At(s, i, Waiting)
    ensures i in WaitSet(s)
  {
  }

  ghost predicate Quiet(s: State, w: nat, rounds: nat) {
    && Inv(s, w, rounds) && s.signaller == Exited && s.flag
    && |s.waiters| == w && WaitSet(s) == {} && forall i: nat :: i < w ==> s.waiters[i] != Tested
  }

  /** After the signaller's exit with nobody asleep, no waiter sleeps again and every step is progress. */
  lemma QuietStep(s: State, w: nat, rounds: nat, a: Action)
    requires Quiet(s, w, rounds) && Enabled(s, rounds, a)
    ensures Quiet(Apply(s, rounds, a), w, rounds)
    ensures TotalRank(Apply(s, rounds, a).waiters) < TotalRank(s.waiters)
  {
    StepInv(s, w, rounds, a);
    hide Inv;
    if a.Early? {
      WaiterIsListed(s, a.i);
    } else {
      assert IsWaiters(a) && !a.Wait?;
      WaiterStep(s, rounds, a);
      RankMove(s.waiters, a.i, Target(s, a));
    }
  }

  /** And as long as some waiter is not done, there is a step. */
  lemma QuietCanStep(s: State, w: nat, rounds: nat, i: nat) returns (a: Action)
    requires Quiet(s, w, rounds) && i < w && s.waiters[i] != Done
    ensures Enabled(s, rounds, a)
  {
    if s.waiters[i] == Waiting {
      WaiterIsListed(s, i);
    } else if s.owner == Free {
      a := Lock(i);
    } else {
      a := if At(s, s.owner.i, Holding) then Test(s.owner.i) else Unlock(s.owner.i);
    }
  }

  /** With at least as many rounds as waiters, every run from the signaller's exit leads all waiters home. */
  lemma EnoughRoundsQuiet(w: nat, rounds: nat, t: State)
    requires w <= rounds && Reachable(w, rounds, t) && t.signaller == Exited
    ensures Quiet(t, w, rounds)
  {
    var acts :| Run(Init(w), rounds, acts, t);
    InitInv(w, rounds);
    RunInv(Init(w), w, rounds, acts, t);
    assert forall i: nat :: i < w && t.waiters[i] == Tested ==> Announced(t, i);
  }
}
