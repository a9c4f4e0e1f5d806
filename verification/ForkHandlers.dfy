/**
 fork in a process with threads, with the handlers of 12-thrctl/9-thrfork/thrfork.c: `prepare`
 takes both mutexes, `parent` and `child` give them back. Any number of threads run programs of
 lock, unlock and fork steps, interleaved arbitrarily; the child of a fork has one thread and a
 copy of the mutexes.
 */
module ForkHandlers {

  datatype Lock = Lock1 | Lock2

  datatype Op = Acquire(l: Lock) | Release(l: Lock) | Fork

  type Program = seq<Op>

  datatype Owner = Free | By(thread: nat)

  /** The two mutexes, as laid out in one process's memory. */
  datatype Mutexes = Mutexes(one: Owner, two: Owner) {
    function Get(l: Lock): Owner {
      if l == Lock1 then one else two
    }

    function Put(l: Lock, o: Owner): Mutexes {
      if l == Lock1 then this.(one := o) else this.(two := o)
    }

    function Held(i: nat): set<Lock> {
      set l: Lock | Get(l) == By(i)
    }
  }

  /** A forked process: only the thread `self` exists in it, about to run the child handler. */
  datatype Child = Child(self: nat, todo: Program, mutexes: Mutexes)

  datatype State = State(threads: seq<Program>, mutexes: Mutexes, children: seq<Child>)

  datatype Action = Step(i: nat) | ChildStep(k: nat)

  const PREPARE: Program := [Acquire(Lock1), Acquire(Lock2)]
  const RELEASE_BOTH: Program := [Release(Lock1), Release(Lock2)]  // `parent`, and `child` as well

  /** fork() after pthread_atfork(prepare, parent, child). */
  const FORK_CALL: Program := PREPARE + [Fork] + RELEASE_BOTH

  /** `thr_rtn2`. */
  const WORKER: Program := [Acquire(Lock1), Release(Lock1)]

  predicate CanRun(op: Op, m: Mutexes, i: nat) {
    match op
    case Acquire(l) => m.Get(l) == Free
    case Release(l) => m.Get(l) == By(i)
    case Fork => true
  }

  function Effect(op: Op, m: Mutexes, i: nat): Mutexes {
    match op
    case Acquire(l) => m.Put(l, By(i))
    case Release(l) => m.Put(l, Free)
    case Fork => m
  }

  predicate Enabled(s: State, a: Action) {
    match a
    case Step(i) => i < |s.threads| && s.threads[i] != [] && CanRun(s.threads[i][0], s.mutexes, i)
    case ChildStep(k) =>
      k < |s.children| && s.children[k].todo != [] &&
      CanRun(s.children[k].todo[0], s.children[k].mutexes, s.children[k].self)
  }

  function Apply(s: State, a: Action): State
    requires Enabled(s, a)
  {
    match a
    case Step(i) =>
      var op := s.threads[i][0];
      State(s.threads[i := s.threads[i][1..]], Effect(op, s.mutexes, i),
            if op == Fork then s.children + [Child(i, RELEASE_BOTH, s.mutexes)] else s.children)
    case ChildStep(k) =>
      var c := s.children[k];
      s.(children := s.children[k := Child(c.self, c.todo[1..], Effect(c.todo[0], c.mutexes, c.self))])
  }

  ghost predicate Run(s: State, acts: seq<Action>, t: State)
    decreases |acts|
  {
    if acts == [] then s == t
    else Enabled(s, acts[0]) && Run(Apply(s, acts[0]), acts[1..], t)
  }

  function Init(programs: seq<Program>): State {
    State(programs, Mutexes(Free, Free), [])
  }

  ghost predicate Reachable(programs: seq<Program>, t: State) {
    exists acts :: Run(Init(programs), acts, t)
  }

  /**
   The locking rule a program must follow from holding `held` on: `Lock1` before `Lock2`, release
   what is held, hold both when forking, end with nothing.
   */
  predicate Disciplined(p: Program, held: set<Lock>) {
    if p == [] then held == {}
    else match p[0]
      case Acquire(l) => l !in held && (l == Lock1 ==> Lock2 !in held) && Disciplined(p[1..], held + {l})
      case Release(l) => l in held && Disciplined(p[1..], held - {l})
      case Fork => held == {Lock1, Lock2} && Disciplined(p[1..], held)
  }

  lemma {:induction false} DisciplinedConcat(p: Program, held: set<Lock>, q: Program)
    requires Disciplined(p, held) && Disciplined(q, {})
    ensures Disciplined(p + q, held)
  {
    if p == [] {
      assert p + q == q;
    } else {
      assert (p + q)[1..] == p[1..] + q;
      var next := match p[0] case Acquire(l) => held + {l} case Release(l) => held - {l} case Fork => held;
      DisciplinedConcat(p[1..], next, q);
    }
  }

  /** Threads built from guarded forks and from workers follow the rule. */
  lemma {:induction false} PiecesAreDisciplined(pieces: seq<Program>)
    requires forall k :: 0 <= k < |pieces| ==> pieces[k] == FORK_CALL || pieces[k] == WORKER
    ensures Disciplined(Joined(pieces), {})
  {
    if pieces != [] {
      PiecesAreDisciplined(pieces[1..]);
      SourceIsDisciplined();
      DisciplinedConcat(pieces[0], {}, Joined(pieces[1..]));
    }
  }

  function Joined(pieces: seq<Program>): Program {
    if pieces == [] then [] else pieces[0] + Joined(pieces[1..])
  }

  lemma SourceIsDisciplined()
    ensures Disciplined(FORK_CALL, {}) && Disciplined(WORKER, {})
    ensures Disciplined(RELEASE_BOTH, {Lock1, Lock2})
  {
    assert RELEASE_BOTH[1..] == [Release(Lock2)] && [Release(Lock2)][1..] == [];
    assert Disciplined([Release(Lock2)], {Lock1, Lock2} - {Lock1});
    assert WORKER[1..] == [Release(Lock1)] && [Release(Lock1)][1..] == [];
    var p3 := [Fork] + RELEASE_BOTH;
    assert p3[1..] == RELEASE_BOTH;
    var p2 := [Acquire(Lock2)] + p3;
    assert p2[1..] == p3 && {Lock1} + {Lock2} == {Lock1, Lock2};
    assert Disciplined(p3, {Lock1} + {Lock2});
    assert {} + {Lock1} == {Lock1};
    assert Disciplined(p2, {} + {Lock1});
    assert FORK_CALL == [Acquire(Lock1)] + p2 && FORK_CALL[1..] == p2;
  }

  /** No mutex of the child is owned by a thread that the child does not have. */
  ghost predicate NoOrphan(c: Child) {
    forall l: Lock :: c.mutexes.Get(l) == Free || c.mutexes.Get(l) == By(c.self)
  }

  ghost predicate ThreadOk(s: State, i: nat) {
    i < |s.threads| && Disciplined(s.threads[i], s.mutexes.Held(i))
  }

  ghost predicate ChildOk(c: Child) {
    NoOrphan(c) && Disciplined(c.todo, c.mutexes.Held(c.self)) &&
    forall j :: 0 <= j < |c.todo| ==> c.todo[j].Release?
  }

  ghost predicate Inv(s: State, n: nat) {
    && |s.threads| == n
    && (forall i: nat :: i < n ==> ThreadOk(s, i))
    && (forall l: Lock :: s.mutexes.Get(l).By? ==> s.mutexes.Get(l).thread < n)
    && (forall k :: 0 <= k < |s.children| ==> ChildOk(s.children[k]))
  }

  lemma EffectHeld(op: Op, m: Mutexes, i: nat, j: nat)
    requires CanRun(op, m, i)
    ensures j != i ==> Effect(op, m, i).Held(j) == m.Held(j)
    ensures Effect(op, m, i).Held(i) ==
            match op case Acquire(l) => m.Held(i) + {l} case Release(l) => m.Held(i) - {l} case Fork => m.Held(i)
  {
  }

  lemma ThreadStepInv(s: State, n: nat, i: nat)
    requires Inv(s, n) && Enabled(s, Step(i))
    ensures Inv(Apply(s, Step(i)), n)
  {
    var t := Apply(s, Step(i));
    var op := s.threads[i][0];
    assert ThreadOk(s, i);
    forall j: nat | j < n
      ensures ThreadOk(t, j)
    {
      assert ThreadOk(s, j);
      EffectHeld(op, s.mutexes, i, j);
    }
    forall l: Lock
      ensures t.mutexes.Get(l).By? ==> t.mutexes.Get(l).thread < n
    {
      assert s.mutexes.Get(l).By? ==> s.mutexes.Get(l).thread < n;
    }
    forall k | 0 <= k < |t.children|
      ensures ChildOk(t.children[k])
    {
      if k == |s.children| {
        ForkedChildOk(s.mutexes, i);
      } else {
        assert t.children[k] == s.children[k];
      }
    }
  }

  lemma ChildStepOk(c: Child)
    requires ChildOk(c) && c.todo != [] && CanRun(c.todo[0], c.mutexes, c.self)
    ensures ChildOk(Child(c.self, c.todo[1..], Effect(c.todo[0], c.mutexes, c.self)))
  {
    EffectHeld(c.todo[0], c.mutexes, c.self, c.self);
    assert forall j :: 0 <= j < |c.todo| - 1 ==> c.todo[1..][j] == c.todo[j + 1];
    var next := Child(c.self, c.todo[1..], Effect(c.todo[0], c.mutexes, c.self));
    forall l: Lock
      ensures next.mutexes.Get(l) == Free || next.mutexes.Get(l) == By(c.self)
    {
      assert c.mutexes.Get(l) == Free || c.mutexes.Get(l) == By(c.self);
    }
    assert ChildOk(next);
  }

  lemma StepInv(s: State, n: nat, a: Action)
    requires Inv(s, n) && Enabled(s, a)
    ensures Inv(Apply(s, a), n)
  {
    match a
    case Step(i) =>
      ThreadStepInv(s, n, i);
    case ChildStep(k) =>
      var t := Apply(s, a);
      assert ChildOk(s.children[k]);
      ChildStepOk(s.children[k]);
      forall j: nat | j < n
        ensures ThreadOk(t, j)
      {
        assert ThreadOk(s, j);
      }
  }

  lemma ForkedChildOk(m: Mutexes, i: nat)
    requires m.Held(i) == {Lock1, Lock2}
    ensures ChildOk(Child(i, RELEASE_BOTH, m))
  {
    SourceIsDisciplined();
    assert Lock1 in m.Held(i) && Lock2 in m.Held(i);
  }

  lemma {:induction false} RunInv(s: State, n: nat, acts: seq<Action>, t: State)
    requires Inv(s, n) && Run(s, acts, t)
    ensures Inv(t, n)
    decreases |acts|
  {
    if acts != [] {
      StepInv(s, n, acts[0]);
      RunInv(Apply(s, acts[0]), n, acts[1..], t);
    }
  }

  ghost predicate AllDisciplined(programs: seq<Program>) {
    forall i :: 0 <= i < |programs| ==> Disciplined(programs[i], {})
  }

  lemma ReachableInv(programs: seq<Program>, t: State)
    requires AllDisciplined(programs) && Reachable(programs, t)
    ensures Inv(t, |programs|)
  {
    var s := Init(programs);
    forall i: nat | i < |programs|
      ensures ThreadOk(s, i)
    {
      assert s.mutexes.Held(i) == {};
    }
    var acts :| Run(s, acts, t);
    RunInv(s, |programs|, acts, t);
  }

  /**
   In every reachable state, no child has a mutex of a thread it lacks; a child still in its
   handler can go on, and a child whose fork has returned has both mutexes free.
   */
  lemma ChildrenAreClean(programs: seq<Program>, t: State, k: nat)
    requires AllDisciplined(programs) && Reachable(programs, t) && k < |t.children|
    ensures NoOrphan(t.children[k])
    ensures t.children[k].todo != [] ==> Enabled(t, ChildStep(k))
    ensures t.children[k].todo == [] ==> t.children[k].mutexes == Mutexes(Free, Free)
  {
    ReachableInv(programs, t);
    var c := t.children[k];
    assert ChildOk(c);
    if c.todo == [] {
      assert Lock1 !in c.mutexes.Held(c.self) && Lock2 !in c.mutexes.Held(c.self);
      assert c.mutexes.Get(Lock1) == Free && c.mutexes.Get(Lock2) == Free;
    } else {
      assert c.todo[0].Release?;
    }
  }

  /** No deadlock: while some thread has steps left, some thread can take one. */
  lemma NoDeadlock(programs: seq<Program>, t: State, i: nat) returns (j: nat)
    requires AllDisciplined(programs) && Reachable(programs, t) && i < |t.threads| && t.threads[i] != []
    ensures Enabled(t, Step(j))
  {
    ReachableInv(programs, t);
    j := i;
    if !Enabled(t, Step(j)) {
      assert ThreadOk(t, j);
      j := Blocker(t, j);
    }
    if !Enabled(t, Step(j)) {
      // j holds Lock1 and waits for Lock2; whoever holds that waits for nothing
      j := Blocker(t, j);
    }
  }

  /** The thread that holds the mutex `i` waits for: it can step, or it waits for `Lock2` in turn. */
  lemma Blocker(t: State, i: nat) returns (j: nat)
    requires Inv(t, |t.threads|) && i < |t.threads| && t.threads[i] != [] && !Enabled(t, Step(i))
    ensures j < |t.threads| && t.threads[j] != []
    ensures Enabled(t, Step(j)) || (t.threads[i][0] == Acquire(Lock1) && t.threads[j][0] == Acquire(Lock2))
  {
    assert ThreadOk(t, i);
    var l := t.threads[i][0].l;
    assert t.threads[i][0].Release? ==> l in t.mutexes.Held(i);
    j := t.mutexes.Get(l).thread;
    assert ThreadOk(t, j) && l in t.mutexes.Held(j);
    assert t.threads[j][0].Release? ==> t.threads[j][0].l in t.mutexes.Held(j);
  }

  /** Steps a program can still cause: a fork also brings the child's two unlocks. */
  function Work(p: Program): nat {
    if p == [] then 0 else (if p[0] == Fork then 1 + |RELEASE_BOTH| else 1) + Work(p[1..])
  }

  function ThreadsWork(ps: seq<Program>): nat {
    if ps == [] then 0 else Work(ps[0]) + ThreadsWork(ps[1..])
  }

  function ChildrenWork(cs: seq<Child>): nat {
    if cs == [] then 0 else |cs[0].todo| + ChildrenWork(cs[1..])
  }

  lemma {:induction false} ThreadsWorkUpdate(ps: seq<Program>, i: nat, p: Program)
    requires i < |ps|
    ensures ThreadsWork(ps[i := p]) == ThreadsWork(ps) - Work(ps[i]) + Work(p)
  {
    if i == 0 {
      assert ps[0 := p][1..] == ps[1..];
    } else {
      ThreadsWorkUpdate(ps[1..], i - 1, p);
      assert ps[i := p][1..] == ps[1..][i - 1 := p];
    }
  }

  lemma {:induction false} ChildrenWorkUpdate(cs: seq<Child>, k: nat, c: Child)
    requires k < |cs|
    ensures ChildrenWork(cs[k := c]) == ChildrenWork(cs) - |cs[k].todo| + |c.todo|
  {
    if k == 0 {
      assert cs[0 := c][1..] == cs[1..];
    } else {
      ChildrenWorkUpdate(cs[1..], k - 1, c);
      assert cs[k := c][1..] == cs[1..][k - 1 := c];
    }
  }

  lemma {:induction false} ChildrenWorkAppend(cs: seq<Child>, c: Child)
    ensures ChildrenWork(cs + [c]) == ChildrenWork(cs) + |c.todo|
  {
    if cs == [] {
      assert cs + [c] == [c];
    } else {
      ChildrenWorkAppend(cs[1..], c);
      assert (cs + [c])[1..] == cs[1..] + [c];
    }
  }

  /** Every step uses up work, so every run ends. */
  lemma EveryStepIsProgress(s: State, a: Action)
    requires Enabled(s, a)
    ensures ThreadsWork(Apply(s, a).threads) + ChildrenWork(Apply(s, a).children)
          < ThreadsWork(s.threads) + ChildrenWork(s.children)
  {
    match a
    case Step(i) =>
      ThreadsWorkUpdate(s.threads, i, s.threads[i][1..]);
      ChildrenWorkAppend(s.children, Child(i, RELEASE_BOTH, s.mutexes));
    case ChildStep(k) =>
      ChildrenWorkUpdate(s.children, k, Apply(s, a).children[k]);
  }

  /**
   When nothing can step any more, every program has run to its end, in the process and in all its
   children, and every mutex is free.
   */
  lemma RunsEndClean(programs: seq<Program>, t: State)
    requires AllDisciplined(programs) && Reachable(programs, t) && forall a :: !Enabled(t, a)
    ensures t.threads == seq(|programs|, _ => [])
    ensures t.mutexes == Mutexes(Free, Free)
    ensures forall k :: 0 <= k < |t.children| ==> t.children[k].todo == []
                                                  && t.children[k].mutexes == Mutexes(Free, Free)
  {
    ReachableInv(programs, t);
    forall i: nat | i < |t.threads|
      ensures t.threads[i] == []
    {
      if t.threads[i] != [] {
        var j := NoDeadlock(programs, t, i);
      }
    }
    forall j: nat | j < |t.threads|
      ensures t.mutexes.Held(j) == {}
    {
      assert ThreadOk(t, j);
    }
    assert forall l: Lock :: t.mutexes.Get(l).By? ==> l in t.mutexes.Held(t.mutexes.Get(l).thread);
    assert t.mutexes.Get(Lock1) == Free && t.mutexes.Get(Lock2) == Free;
    forall k: nat | k < |t.children|
      ensures t.children[k].todo == [] && t.children[k].mutexes == Mutexes(Free, Free)
    {
      ChildrenAreClean(programs, t, k);
      assert !Enabled(t, ChildStep(k));
    }
  }

  /** What a fork copies is clean exactly when no other thread holds a mutex at that moment. */
  lemma ForkIsCleanIff(m: Mutexes, i: nat, todo: Program)
    ensures NoOrphan(Child(i, todo, m)) <==> forall j: nat :: j != i ==> m.Held(j) == {}
  {
    if l: Lock :| m.Get(l).By? && m.Get(l).thread != i {
      assert l in m.Held(m.Get(l).thread);
    }
    forall j: nat | j != i && m.Held(j) != {}
      ensures !NoOrphan(Child(i, todo, m))
    {
      var l :| l in m.Held(j);
      assert Child(i, todo, m).mutexes.Get(l) == By(j);
    }
  }

  /** Without the handlers a worker's mutex is lost in the child. */
  lemma BareForkOrphans() returns (t: State)
    ensures Reachable([WORKER, [Fork]], t) && |t.children| == 1 && !NoOrphan(t.children[0])
  {
    var s := Init([WORKER, [Fork]]);
    var s1 := Apply(s, Step(0));
    t := Apply(s1, Step(1));
    assert Run(t, [], t);
    assert [Step(1)][1..] == [];
    assert Run(s1, [Step(1)], t);
    assert [Step(0), Step(1)][1..] == [Step(1)];
    assert Run(s, [Step(0), Step(1)], t);
    assert t.children[0].mutexes.Get(Lock1) == By(0);
  }

  /** And threads that do not agree on the lock order can block each other for good. */
  lemma OppositeOrdersDeadlock() returns (t: State)
    ensures Reachable([[Acquire(Lock1), Acquire(Lock2)], [Acquire(Lock2), Acquire(Lock1)]], t)
    ensures |t.threads| == 2 && t.threads[0] != [] && t.threads[1] != [] && forall a :: !Enabled(t, a)
  {
    var s := Init([[Acquire(Lock1), Acquire(Lock2)], [Acquire(Lock2), Acquire(Lock1)]]);
    var s1 := Apply(s, Step(0));
    t := Apply(s1, Step(1));
    assert Run(t, [], t);
    assert [Step(1)][1..] == [];
    assert Run(s1, [Step(1)], t);
    assert [Step(0), Step(1)][1..] == [Step(1)];
    assert Run(s, [Step(0), Step(1)], t);
  }

  // How many children there are in the end

  function Forks(p: Program): nat {
    if p == [] then 0 else (if p[0] == Fork then 1 else 0) + Forks(p[1..])
  }

  function AllForks(ps: seq<Program>): nat {
    if ps == [] then 0 else Forks(ps[0]) + AllForks(ps[1..])
  }

  lemma {:induction false} AllForksUpdate(ps: seq<Program>, i: nat, p: Program)
    requires i < |ps|
    ensures AllForks(ps[i := p]) == AllForks(ps) - Forks(ps[i]) + Forks(p)
  {
    if i == 0 {
      assert ps[0 := p][1..] == ps[1..];
    } else {
      AllForksUpdate(ps[1..], i - 1, p);
      assert ps[i := p][1..] == ps[1..][i - 1 := p];
    }
  }

  lemma {:induction false} RunForks(s: State, acts: seq<Action>, t: State)
    requires Run(s, acts, t)
    ensures |t.children| + AllForks(t.threads) == |s.children| + AllForks(s.threads)
    decreases |acts|
  {
    if acts != [] {
      if acts[0].Step? {
        AllForksUpdate(s.threads, acts[0].i, s.threads[acts[0].i][1..]);
      }
      RunForks(Apply(s, acts[0]), acts[1..], t);
    }
  }

  lemma {:induction false} NoForksLeft(ps: seq<Program>)
    requires forall i :: 0 <= i < |ps| ==> ps[i] == []
    ensures AllForks(ps) == 0
  {
    if ps != [] {
      NoForksLeft(ps[1..]);
    }
  }

  /** Every fork of the programs, and nothing else, has brought a child when nothing can step any more. */
  lemma EveryForkHasItsChild(programs: seq<Program>, t: State)
    requires AllDisciplined(programs) && Reachable(programs, t) && forall a :: !Enabled(t, a)
    ensures |t.children| == AllForks(programs)
  {
    RunsEndClean(programs, t);
    var acts :| Run(Init(programs), acts, t);
    RunForks(Init(programs), acts, t);
    NoForksLeft(t.threads);
  }

  /** The fork of the program brings one child, and the worker none. */
  lemma OneForkPerCall()
    ensures FORK_CALL == [Acquire(Lock1), Acquire(Lock2), Fork, Release(Lock1), Release(Lock2)]
    ensures WORKER == [Acquire(Lock1), Release(Lock1)]
    ensures Forks(FORK_CALL) == 1 && Forks(WORKER) == 0
  {
    var p := FORK_CALL;
    assert p == [Acquire(Lock1), Acquire(Lock2), Fork, Release(Lock1), Release(Lock2)];
    assert p[1..] == [Acquire(Lock2), Fork, Release(Lock1), Release(Lock2)];
    assert p[1..][1..] == [Fork, Release(Lock1), Release(Lock2)];
    assert p[1..][1..][1..] == [Release(Lock1), Release(Lock2)];
    assert p[1..][1..][1..][1..] == [Release(Lock2)];
    assert [Release(Lock2)][1..] == [];
    assert Forks([Release(Lock2)]) == 0;
    assert Forks([Release(Lock1), Release(Lock2)]) == 0;
    assert Forks([Fork, Release(Lock1), Release(Lock2)]) == 1;
    assert Forks([Acquire(Lock2), Fork, Release(Lock1), Release(Lock2)]) == 1;
    assert Forks([Release(Lock1)]) == 0;
    assert WORKER[1..] == [Release(Lock1)] && [Release(Lock1)][1..] == [];
  }
}
