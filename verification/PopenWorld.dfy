/**
 Who holds which pipe end under `popen_l` and `pclose_l` (15-ipc/4-popen/popen.c): the parent's
 descriptor table and its `childpid` entries, the children, and all the processes that descend from
 them, over every sequence of calls and of steps of those processes.
 */
module PopenWorld {
  import opened Descriptors
  import opened Options

  /** The `type` argument: "r" reads from the command, "w" writes to it. */
  datatype Mode = Read | Write

  type Pid = p: int | p > 0 witness 1

  /** The end that stays in the parent, and the one for the command. */
  function ParentEnd(mode: Mode, pipe: nat): Entry {
    if mode == Read then ReadEnd(pipe) else WriteEnd(pipe)
  }

  function ChildEnd(mode: Mode, pipe: nat): Entry {
    if mode == Read then WriteEnd(pipe) else ReadEnd(pipe)
  }

  /** STDOUT_FILENO or STDIN_FILENO: where the command expects its end. */
  function Std(mode: Mode): nat {
    if mode == Read then 1 else 0
  }

  /** A child not yet waited for, with its exit status once it has one. */
  datatype Child = Child(pipe: nat, mode: Mode, status: Option<int>)

  /** A running process that descends from the child started with pipe `root` (or is that child). */
  datatype Proc = Proc(root: nat, mode: Mode, table: Table)

  /**
   `childpid` has the array's nonzero elements; `waiting` is the child that a pclose_l under way
   waits for. `lost` are children that no stream refers to, `leaked` the pipes of failed calls.
   */
  datatype World = World(parent: Table, childpid: map<nat, Pid>, children: map<Pid, Child>, procs: map<Pid, Proc>,
                         waiting: Option<Pid>, lost: set<Pid>, leaked: set<nat>, nextPipe: nat)

  /** How a call of popen_l goes. */
  datatype Outcome = Fine | PipeFails | ForkFails | FdopenFails

  datatype Event =
    | Popen(mode: Mode, pid: Pid, outcome: Outcome)
    | PcloseBegin(fd: nat)                 // up to and including fclose
    | PcloseFails(fd: nat)                 // fclose fails, and pclose_l with it
    | PcloseEnd                            // waitpid returns
    | Exit(pid: Pid, status: int)          // a process below the parent exits
    | Fork(pid: Pid, newPid: Pid)          // and forks
    | Rearrange(pid: Pid, table: Table)    // and closes, dups, opens
    | ParentOpen(fd: nat, id: nat)         // the parent opens and closes other files
    | ParentClose(fd: nat)

  function PipeEnds(w: World): (nat, nat) {
    PipeSlots(w.parent)
  }

  predicate PipeWorks(w: World, limit: nat, outcome: Outcome) {
    outcome != PipeFails && PipeEnds(w).1 < limit
  }

  function WithPipe(w: World): Table {
    w.parent[PipeEnds(w).0 := ReadEnd(w.nextPipe)][PipeEnds(w).1 := WriteEnd(w.nextPipe)]
  }

  /** The child's table when it execs: its end moved into place, then all older streams closed. */
  function ChildTable(w: World, limit: nat, mode: Mode): Table {
    var (a, b) := PipeEnds(w);
    (if mode == Read then Wired(WithPipe(w), limit, b, a, 1) else Wired(WithPipe(w), limit, a, b, 0))
    - w.childpid.Keys
  }

  /** The descriptor that popen_l's stream gets. */
  function StreamFd(w: World, mode: Mode): nat {
    if mode == Read then PipeEnds(w).0 else PipeEnds(w).1
  }

  /** popen_l: the new state, and the new stream's descriptor if it returns a stream. */
  function PopenStep(w: World, limit: nat, mode: Mode, pid: Pid, outcome: Outcome): (World, Option<nat>) {
    if !PipeWorks(w, limit, outcome) then (w, None)
    else if outcome == ForkFails then
      (w.(parent := WithPipe(w), leaked := w.leaked + {w.nextPipe}, nextPipe := w.nextPipe + 1), None)
    else
      var fd := StreamFd(w, mode);
      var other := if mode == Read then PipeEnds(w).1 else PipeEnds(w).0;
      var started := w.(parent := WithPipe(w) - {other}, nextPipe := w.nextPipe + 1,
                        children := w.children[pid := Child(w.nextPipe, mode, None)],
                        procs := w.procs[pid := Proc(w.nextPipe, mode, ChildTable(w, limit, mode))]);
      if outcome == FdopenFails then
        (started.(lost := w.lost + {pid}, leaked := w.leaked + {w.nextPipe}), None)
      else (started.(childpid := w.childpid[fd := pid]), Some(fd))
  }

  function CloseStream(w: World, fd: nat): World
    requires fd in w.childpid
  {
    w.(parent := w.parent - {fd}, childpid := w.childpid - {fd}, waiting := Some(w.childpid[fd]))
  }

  /** fclose failed: the descriptor is closed, the child is never waited for. */
  function Abandoned(w: World, fd: nat): World
    requires fd in w.childpid
  {
    CloseStream(w, fd).(waiting := w.waiting, lost := w.lost + {w.childpid[fd]})
  }

  predicate Allowed(t: Table, table: Table) {
    forall fd :: fd in table ==> table[fd].Other? || table[fd] in t.Values
  }

  predicate Enabled(w: World, limit: nat, e: Event) {
    match e
    case Popen(_, pid, _) => w.waiting == None && pid !in w.children && pid !in w.procs
    case PcloseBegin(fd) => w.waiting == None && fd in w.childpid
    case PcloseFails(fd) => w.waiting == None && fd in w.childpid
    case PcloseEnd => w.waiting.Some? && w.waiting.value in w.children && w.children[w.waiting.value].status.Some?
    case Exit(pid, _) => pid in w.procs
    case Fork(pid, newPid) => pid in w.procs && newPid !in w.procs && newPid !in w.children
    case Rearrange(pid, table) => pid in w.procs && Allowed(w.procs[pid].table, table)
    case ParentOpen(fd, _) => w.waiting == None && fd !in w.parent
    case ParentClose(fd) => w.waiting == None && fd in w.parent && fd !in w.childpid
  }

  function Apply(w: World, limit: nat, e: Event): World
    requires Enabled(w, limit, e)
  {
    match e
    case Popen(mode, pid, outcome) => PopenStep(w, limit, mode, pid, outcome).0
    case PcloseBegin(fd) => CloseStream(w, fd)
    case PcloseFails(fd) => Abandoned(w, fd)
    case PcloseEnd => w.(children := w.children - {w.waiting.value}, waiting := None)
    case Exit(pid, status) =>
      w.(procs := w.procs - {pid},
         children := if pid in w.children then w.children[pid := w.children[pid].(status := Some(status))]
                     else w.children)
    case Fork(pid, newPid) => w.(procs := w.procs[newPid := w.procs[pid]])
    case Rearrange(pid, table) => w.(procs := w.procs[pid := w.procs[pid].(table := table)])
    case ParentOpen(fd, id) => w.(parent := w.parent[fd := Other(id)])
    case ParentClose(fd) => w.(parent := w.parent - {fd})
  }

  ghost predicate Run(w: World, limit: nat, events: seq<Event>, v: World)
    decreases |events|
  {
    if events == [] then w == v
    else Enabled(w, limit, events[0]) && Run(Apply(w, limit, events[0]), limit, events[1..], v)
  }

  /** Before the first call: the parent has only other files open. */
  ghost predicate Initial(w: World) {
    && w.childpid == map[] && w.children == map[] && w.procs == map[]
    && w.waiting == None && w.lost == {} && w.leaked == {}
    && forall fd :: fd in w.parent ==> w.parent[fd].Other?
  }

  // The invariant, one entity at a time

  /** A stream belongs to an unreaped child of its own, and names its pipe's parent end. */
  ghost predicate StreamOk(w: World, fd: nat) {
    fd in w.childpid && fd in w.parent && w.childpid[fd] in w.children &&
    var c := w.children[w.childpid[fd]];
    w.parent[fd] == ParentEnd(c.mode, c.pipe) && w.childpid[fd] !in w.lost && w.waiting != Some(w.childpid[fd])
  }

  /** An end of a pipe of some failed call, or no pipe end of popen_l's at all. */
  predicate Foreign(w: World, e: Entry) {
    e.Other? || e.pipe in w.leaked
  }

  ghost predicate ParentSlotOk(w: World, fd: nat) {
    fd in w.parent && (fd in w.childpid || Foreign(w, w.parent[fd]))
  }

  predicate StreamOf(w: World, fd: nat, pid: Pid) {
    fd in w.childpid && w.childpid[fd] == pid
  }

  ghost predicate ChildOk(w: World, pid: Pid) {
    && pid in w.children
    && w.children[pid].pipe < w.nextPipe && (w.children[pid].status == None <==> pid in w.procs)
    && (pid in w.lost || w.children[pid].pipe !in w.leaked)
    && (pid in w.lost || w.waiting == Some(pid) || exists fd :: StreamOf(w, fd, pid))
  }

  ghost predicate ProcOk(w: World, p: Pid) {
    p in w.procs && w.procs[p].root < w.nextPipe &&
    forall fd :: fd in w.procs[p].table ==>
      Foreign(w, w.procs[p].table[fd]) || w.procs[p].table[fd] == ChildEnd(w.procs[p].mode, w.procs[p].root)
  }

  ghost predicate SameMode(w: World, p: Pid, c: Pid) {
    p in w.procs && c in w.children && (w.procs[p].root == w.children[c].pipe ==> w.procs[p].mode == w.children[c].mode)
  }

  ghost predicate ParentInv(w: World) {
    && (forall fd :: fd in w.childpid ==> StreamOk(w, fd))
    && (forall fd, fd' :: fd in w.childpid && fd' in w.childpid && fd != fd' ==> w.childpid[fd] != w.childpid[fd'])
    && (forall fd :: fd in w.parent ==> ParentSlotOk(w, fd))
  }

  ghost predicate ChildrenInv(w: World) {
    && (forall c :: c in w.children ==> ChildOk(w, c))
    && (forall c, c' :: c in w.children && c' in w.children && c != c' ==> w.children[c].pipe != w.children[c'].pipe)
    && (w.waiting.Some? ==> w.waiting.value in w.children && w.waiting.value !in w.lost)
    && w.lost <= w.children.Keys
    && (forall n :: n in w.leaked ==> n < w.nextPipe)
  }

  ghost predicate ProcsInv(w: World) {
    && (forall p :: p in w.procs ==> ProcOk(w, p))
    && (forall p, c :: p in w.procs && c in w.children ==> SameMode(w, p, c))
  }

  ghost predicate Inv(w: World) {
    ParentInv(w) && ChildrenInv(w) && ProcsInv(w)
  }

  /** The parent's descriptors that are not popen streams. */
  function Base(w: World): Table {
    w.parent - w.childpid.Keys
  }

  /**
   The child starts with exactly the parent's other descriptors and its own pipe end in place, and
   none of the older streams; unless one of those sits where its end belongs, which is then lost.
   */
  lemma ChildTableExactly(w: World, limit: nat, mode: Mode)
    requires PipeEnds(w).1 < limit
    ensures ChildTable(w, limit, mode)
         == if Std(mode) in w.childpid then Base(w) else Base(w)[Std(mode) := ChildEnd(mode, w.nextPipe)]
  {
    var (a, b) := PipeEnds(w);
    var n := w.nextPipe;
    assert w.parent[a := ReadEnd(n)][b := WriteEnd(n)] == w.parent[b := WriteEnd(n)][a := ReadEnd(n)];
    if mode == Read {
      WiredExactly(w.parent, limit, b, a, 1, WriteEnd(n), ReadEnd(n));
    } else {
      WiredExactly(w.parent, limit, a, b, 0, ReadEnd(n), WriteEnd(n));
    }
  }

  /** The parent keeps exactly its old table and the stream's end. */
  lemma ParentTableExactly(w: World, mode: Mode)
    ensures var other := if mode == Read then PipeEnds(w).1 else PipeEnds(w).0;
            && WithPipe(w) - {other} == w.parent[StreamFd(w, mode) := ParentEnd(mode, w.nextPipe)]
            && StreamFd(w, mode) !in w.parent
  {
  }

  /** A popen_l that returns a stream: which end is where, for each of the two types. */
  lemma PopenEnds(w: World, limit: nat, mode: Mode, pid: Pid, outcome: Outcome)
    ensures var (v, fp) := PopenStep(w, limit, mode, pid, outcome);
            && (fp.Some? <==> outcome == Fine && PipeSlots(w.parent).1 < limit)
            && (fp.Some? ==> fp.value !in w.parent && v.childpid == w.childpid[fp.value := pid] && pid in v.procs)
            && (fp.Some? && mode == Read ==>
                  && v.parent == w.parent[fp.value := ReadEnd(w.nextPipe)]
                  && v.procs[pid].table == if 1 in w.childpid then w.parent - w.childpid.Keys
                                           else (w.parent - w.childpid.Keys)[1 := WriteEnd(w.nextPipe)])
            && (fp.Some? && mode == Write ==>
                  && v.parent == w.parent[fp.value := WriteEnd(w.nextPipe)]
                  && v.procs[pid].table == if 0 in w.childpid then w.parent - w.childpid.Keys
                                           else (w.parent - w.childpid.Keys)[0 := ReadEnd(w.nextPipe)])
  {
    if PipeWorks(w, limit, outcome) {
      ParentTableExactly(w, mode);
      ChildTableExactly(w, limit, mode);
    }
    hide ChildTable, WithPipe, StreamFd;
  }

  /** `v` is `w` with a new child on a new pipe, and with the parent's end at `fd`. */
  ghost predicate Started(w: World, v: World, fd: nat, mode: Mode, pid: Pid, table: Table, fine: bool) {
    && fd !in w.parent && pid !in w.children && pid !in w.procs && w.waiting == None
    && v.parent == w.parent[fd := ParentEnd(mode, w.nextPipe)]
    && v.children == w.children[pid := Child(w.nextPipe, mode, None)]
    && v.procs == w.procs[pid := Proc(w.nextPipe, mode, table)]
    && v.waiting == None && v.nextPipe == w.nextPipe + 1
    && (if fine then v.childpid == w.childpid[fd := pid] && v.lost == w.lost && v.leaked == w.leaked
        else v.childpid == w.childpid && v.lost == w.lost + {pid} && v.leaked == w.leaked + {w.nextPipe})
    && forall g :: g in table ==> Foreign(w, table[g]) || table[g] == ChildEnd(mode, w.nextPipe)
  }

  lemma ChildTableEntries(w: World, limit: nat, mode: Mode)
    requires Inv(w) && PipeEnds(w).1 < limit
    ensures var table := ChildTable(w, limit, mode);
            forall g :: g in table ==> Foreign(w, table[g]) || table[g] == ChildEnd(mode, w.nextPipe)
  {
    ChildTableExactly(w, limit, mode);
    hide ChildTable;
    forall fd | fd in Base(w)
      ensures Foreign(w, Base(w)[fd])
    {
      assert ParentSlotOk(w, fd);
    }
  }

  lemma PopenStarts(w: World, limit: nat, mode: Mode, pid: Pid, outcome: Outcome)
    requires Inv(w) && Enabled(w, limit, Popen(mode, pid, outcome))
    requires PipeWorks(w, limit, outcome) && outcome != ForkFails
    ensures Started(w, PopenStep(w, limit, mode, pid, outcome).0, StreamFd(w, mode), mode, pid,
                    ChildTable(w, limit, mode), outcome == Fine)
  {
    ParentTableExactly(w, mode);
    ChildTableEntries(w, limit, mode);
    hide ChildTable, WithPipe, StreamFd, Inv;
  }

  lemma StartedParent(w: World, v: World, fd: nat, mode: Mode, pid: Pid, table: Table, fine: bool)
    requires Inv(w) && Started(w, v, fd, mode, pid, table, fine)
    ensures ParentInv(v)
  {
    assert fd in w.childpid ==> StreamOk(w, fd);
    forall g | g in v.childpid
      ensures StreamOk(v, g) && (g != fd ==> v.childpid[g] != pid)
    {
      assert g in w.childpid ==> StreamOk(w, g);
    }
    forall g | g in v.parent
      ensures ParentSlotOk(v, g)
    {
      assert g in w.parent ==> ParentSlotOk(w, g);
    }
  }

  lemma StartedChildren(w: World, v: World, fd: nat, mode: Mode, pid: Pid, table: Table, fine: bool)
    requires Inv(w) && Started(w, v, fd, mode, pid, table, fine)
    ensures ChildrenInv(v)
  {
    assert fd in w.childpid ==> StreamOk(w, fd);
    forall c | c in v.children
      ensures ChildOk(v, c) && (c != pid ==> v.children[c].pipe < w.nextPipe)
    {
      StartedChild(w, v, fd, mode, pid, table, fine, c);
    }
    hide ParentInv, ProcsInv, ChildOk;
  }

  lemma StartedChild(w: World, v: World, fd: nat, mode: Mode, pid: Pid, table: Table, fine: bool, c: Pid)
    requires Started(w, v, fd, mode, pid, table, fine) && fd !in w.childpid && c in v.children
    requires ChildrenInv(w)
    ensures ChildOk(v, c) && (c != pid ==> v.children[c].pipe < w.nextPipe)
  {
    if c == pid {
      assert fine ==> StreamOf(v, fd, pid);
    } else {
      assert ChildOk(w, c);
      assert forall g :: StreamOf(w, g, c) ==> StreamOf(v, g, c);
    }
  }

  lemma StartedProcs(w: World, v: World, fd: nat, mode: Mode, pid: Pid, table: Table, fine: bool)
    requires Inv(w) && Started(w, v, fd, mode, pid, table, fine)
    ensures ProcsInv(v)
  {
    forall p | p in v.procs
      ensures ProcOk(v, p) && (p != pid ==> v.procs[p].root < w.nextPipe)
    {
      assert p in w.procs ==> ProcOk(w, p);
    }
    forall p, c | p in v.procs && c in v.children
      ensures SameMode(v, p, c)
    {
      if p != pid && c != pid {
        assert SameMode(w, p, c);
      } else if c != pid {
        assert ChildOk(w, c);
      }
    }
  }

  /** A failed fork leaves both ends of the new pipe open. */
  lemma ForkFailsInv(w: World, limit: nat, mode: Mode, pid: Pid)
    requires Inv(w) && PipeWorks(w, limit, ForkFails)
    ensures Inv(PopenStep(w, limit, mode, pid, ForkFails).0)
  {
    var v := PopenStep(w, limit, mode, pid, ForkFails).0;
    forall fd | fd in v.childpid
      ensures StreamOk(v, fd)
    {
      assert StreamOk(w, fd);
    }
    forall fd | fd in v.parent
      ensures ParentSlotOk(v, fd)
    {
      assert fd in w.parent ==> ParentSlotOk(w, fd);
    }
    forall c | c in v.children
      ensures ChildOk(v, c)
    {
      assert ChildOk(w, c);
      assert forall fd :: StreamOf(w, fd, c) ==> StreamOf(v, fd, c);
    }
    forall p | p in v.procs
      ensures ProcOk(v, p)
    {
      assert ProcOk(w, p);
    }
    forall p, c | p in v.procs && c in v.children
      ensures SameMode(v, p, c)
    {
      assert SameMode(w, p, c);
    }
  }

  lemma PopenInv(w: World, limit: nat, mode: Mode, pid: Pid, outcome: Outcome)
    requires Inv(w) && Enabled(w, limit, Popen(mode, pid, outcome))
    ensures Inv(PopenStep(w, limit, mode, pid, outcome).0)
  {
    if PipeWorks(w, limit, outcome) {
      if outcome == ForkFails {
        ForkFailsInv(w, limit, mode, pid);
      } else {
        var v := PopenStep(w, limit, mode, pid, outcome).0;
        var fd, table := StreamFd(w, mode), ChildTable(w, limit, mode);
        PopenStarts(w, limit, mode, pid, outcome);
        StartedParent(w, v, fd, mode, pid, table, outcome == Fine);
        StartedChildren(w, v, fd, mode, pid, table, outcome == Fine);
        StartedProcs(w, v, fd, mode, pid, table, outcome == Fine);
        hide PopenStep, ParentInv, ChildrenInv, ProcsInv;
      }
    }
  }

  lemma PcloseParent(w: World, limit: nat, e: Event)
    requires Inv(w) && (e.PcloseBegin? || e.PcloseEnd?) && Enabled(w, limit, e)
    ensures ParentInv(Apply(w, limit, e))
  {
    var v := Apply(w, limit, e);
    assert e.PcloseBegin? ==> StreamOk(w, e.fd);
    forall fd | fd in v.childpid
      ensures StreamOk(v, fd)
    {
      assert StreamOk(w, fd);
    }
    forall fd | fd in v.parent
      ensures ParentSlotOk(v, fd)
    {
      assert fd in w.parent ==> ParentSlotOk(w, fd);
    }
  }

  lemma PcloseChildren(w: World, limit: nat, e: Event)
    requires Inv(w) && (e.PcloseBegin? || e.PcloseEnd?) && Enabled(w, limit, e)
    ensures ChildrenInv(Apply(w, limit, e))
  {
    var v := Apply(w, limit, e);
    assert e.PcloseBegin? ==> StreamOk(w, e.fd);
    forall c | c in v.children
      ensures ChildOk(v, c)
    {
      assert ChildOk(w, c);
      assert forall fd :: StreamOf(w, fd, c) ==> StreamOf(v, fd, c) || v.waiting == Some(c);
    }
  }

  lemma PcloseProcs(w: World, limit: nat, e: Event)
    requires Inv(w) && (e.PcloseBegin? || e.PcloseEnd?) && Enabled(w, limit, e)
    ensures ProcsInv(Apply(w, limit, e))
  {
    var v := Apply(w, limit, e);
    forall p | p in v.procs
      ensures ProcOk(v, p)
    {
      assert p in w.procs ==> ProcOk(w, p);
    }
    forall p, c | p in v.procs && c in v.children
      ensures SameMode(v, p, c)
    {
      assert p in w.procs ==> SameMode(w, p, c);
    }
  }

  /** A pclose_l whose fclose fails: like one that begins, but the child is lost instead of waited for. */
  lemma AbandonedInv(w: World, limit: nat, fd: nat)
    requires Inv(w) && Enabled(w, limit, PcloseFails(fd))
    ensures Inv(Abandoned(w, fd))
  {
    var c, v := CloseStream(w, fd), Abandoned(w, fd);
    PcloseParent(w, limit, PcloseBegin(fd));
    PcloseChildren(w, limit, PcloseBegin(fd));
    PcloseProcs(w, limit, PcloseBegin(fd));
    LosingParent(c, v);
    LosingChildren(c, v);
    LosingProcs(c, v);
  }

  /** `v` is `c` with the child waited for given up. */
  ghost predicate GivesUp(c: World, v: World) {
    c.waiting.Some? && v == c.(waiting := None, lost := c.lost + {c.waiting.value})
  }

  lemma LosingParent(c: World, v: World)
    requires ParentInv(c) && GivesUp(c, v)
    ensures ParentInv(v)
  {
    forall g | g in v.childpid
      ensures StreamOk(v, g)
    {
      assert StreamOk(c, g);
    }
    forall g | g in v.parent
      ensures ParentSlotOk(v, g)
    {
      assert ParentSlotOk(c, g);
    }
  }

  lemma LosingChildren(c: World, v: World)
    requires ChildrenInv(c) && GivesUp(c, v)
    ensures ChildrenInv(v)
  {
    forall p | p in v.children
      ensures ChildOk(v, p)
    {
      assert ChildOk(c, p);
      assert forall g :: StreamOf(c, g, p) ==> StreamOf(v, g, p);
    }
  }

  lemma LosingProcs(c: World, v: World)
    requires ProcsInv(c) && GivesUp(c, v)
    ensures ProcsInv(v)
  {
    forall p | p in v.procs
      ensures ProcOk(v, p)
    {
      assert ProcOk(c, p);
    }
    forall p, q | p in v.procs && q in v.children
      ensures SameMode(v, p, q)
    {
      assert SameMode(c, p, q);
    }
  }

  /** Neither popen_l nor pclose_l. */
  predicate IsOutside(e: Event) {
    !e.Popen? && !e.PcloseBegin? && !e.PcloseFails? && !e.PcloseEnd?
  }

  lemma OtherParent(w: World, limit: nat, e: Event)
    requires Inv(w) && IsOutside(e) && Enabled(w, limit, e)
    ensures ParentInv(Apply(w, limit, e))
  {
    var v := Apply(w, limit, e);
    forall fd | fd in v.childpid
      ensures StreamOk(v, fd)
    {
      assert StreamOk(w, fd);
    }
    forall fd | fd in v.parent
      ensures ParentSlotOk(v, fd)
    {
      assert fd in w.parent ==> ParentSlotOk(w, fd);
    }
  }

  lemma OtherChildren(w: World, limit: nat, e: Event)
    requires Inv(w) && IsOutside(e) && Enabled(w, limit, e)
    ensures ChildrenInv(Apply(w, limit, e))
  {
    var v := Apply(w, limit, e);
    forall c | c in v.children
      ensures ChildOk(v, c)
    {
      assert ChildOk(w, c);
      assert forall fd :: StreamOf(w, fd, c) ==> StreamOf(v, fd, c) || v.waiting == Some(c);
    }
  }

  lemma OtherProcs(w: World, limit: nat, e: Event)
    requires Inv(w) && IsOutside(e) && Enabled(w, limit, e)
    ensures ProcsInv(Apply(w, limit, e))
  {
    var v := Apply(w, limit, e);
    forall p | p in v.procs
      ensures ProcOk(v, p)
    {
      assert p in w.procs ==> ProcOk(w, p);
      assert e.Fork? ==> ProcOk(w, e.pid);
    }
    forall p, c | p in v.procs && c in v.children
      ensures SameMode(v, p, c)
    {
      assert p in w.procs ==> SameMode(w, p, c);
      assert e.Fork? ==> SameMode(w, e.pid, c);
    }
  }

  lemma StepInv(w: World, limit: nat, e: Event)
    requires Inv(w) && Enabled(w, limit, e)
    ensures Inv(Apply(w, limit, e))
  {
    if e.Popen? {
      PopenInv(w, limit, e.mode, e.pid, e.outcome);
    } else if e.PcloseBegin? || e.PcloseEnd? {
      PcloseParent(w, limit, e);
      PcloseChildren(w, limit, e);
      PcloseProcs(w, limit, e);
    } else if e.PcloseFails? {
      AbandonedInv(w, limit, e.fd);
    } else {
      OtherParent(w, limit, e);
      OtherChildren(w, limit, e);
      OtherProcs(w, limit, e);
    }
  }

  lemma {:induction false} RunInv(w: World, limit: nat, events: seq<Event>, v: World)
    requires Inv(w) && Run(w, limit, events, v)
    ensures Inv(v)
    decreases |events|
  {
    if events != [] {
      StepInv(w, limit, events[0]);
      RunInv(Apply(w, limit, events[0]), limit, events[1..], v);
    }
  }

  lemma ReachedInv(w: World, limit: nat, events: seq<Event>, v: World)
    requires Initial(w) && Run(w, limit, events, v)
    ensures Inv(v)
  {
    assert forall fd :: fd in w.parent ==> ParentSlotOk(w, fd);
    RunInv(w, limit, events, v);
  }

  // What every run keeps

  ghost predicate ParentHolds(w: World, e: Entry) {
    exists fd :: fd in w.parent && w.parent[fd] == e
  }

  ghost predicate ProcHolds(w: World, p: Pid, e: Entry) {
    p in w.procs && exists fd :: fd in w.procs[p].table && w.procs[p].table[fd] == e
  }

  /**
   Over every run, in whatever order streams are opened and closed, and whatever the commands do
   with their descriptors: the parent's end of a live stream's pipe is held by the parent alone, at
   that stream's descriptor alone, and the command's end only by that command and its descendants.
   */
  lemma HoldersOfStream(w: World, limit: nat, events: seq<Event>, v: World, fd: nat)
    requires Initial(w) && Run(w, limit, events, v) && fd in v.childpid
    ensures v.childpid[fd] in v.children && fd in v.parent
    ensures var c := v.children[v.childpid[fd]];
            && (forall g :: g in v.parent ==> (v.parent[g] == ParentEnd(c.mode, c.pipe) <==> g == fd))
            && (forall p :: !ProcHolds(v, p, ParentEnd(c.mode, c.pipe)))
            && !ParentHolds(v, ChildEnd(c.mode, c.pipe))
            && (forall p :: ProcHolds(v, p, ChildEnd(c.mode, c.pipe)) ==> v.procs[p].root == c.pipe)
  {
    ReachedInv(w, limit, events, v);
    assert StreamOk(v, fd);
    ChildEndsApart(v, v.childpid[fd]);
    var c := v.children[v.childpid[fd]];
    forall g | g in v.parent
      ensures v.parent[g] == ParentEnd(c.mode, c.pipe) <==> g == fd
      ensures v.parent[g] != ChildEnd(c.mode, c.pipe)
    {
      assert ParentSlotOk(v, g);
      assert g in v.childpid ==> StreamOk(v, g);
    }
  }

  /** Processes hold no parent's end of an unreaped child's pipe, and its own end only below that child. */
  lemma ChildEndsApart(v: World, pid: Pid)
    requires Inv(v) && pid in v.children && pid !in v.lost
    ensures var c := v.children[pid];
            && (forall p :: !ProcHolds(v, p, ParentEnd(c.mode, c.pipe)))
            && (forall p :: ProcHolds(v, p, ChildEnd(c.mode, c.pipe)) ==> v.procs[p].root == c.pipe)
  {
    assert ChildOk(v, pid);
    forall p | p in v.procs
      ensures !ProcHolds(v, p, ParentEnd(v.children[pid].mode, v.children[pid].pipe))
      ensures ProcHolds(v, p, ChildEnd(v.children[pid].mode, v.children[pid].pipe)) ==>
                v.procs[p].root == v.children[pid].pipe
    {
      assert ProcOk(v, p) && SameMode(v, p, pid);
    }
  }

  /**
   While pclose_l waits for its child, nobody holds the parent's end of the pipe any more: a reader
   gets end-of-file, a writer an error; and the wait hangs on nothing but the child's own exit.
   */
  lemma WaitCannotDeadlock(w: World, limit: nat, events: seq<Event>, v: World)
    requires Initial(w) && Run(w, limit, events, v) && v.waiting.Some?
    ensures v.waiting.value in v.children
    ensures var c := v.children[v.waiting.value];
            !ParentHolds(v, ParentEnd(c.mode, c.pipe)) && forall p :: !ProcHolds(v, p, ParentEnd(c.mode, c.pipe))
    ensures Enabled(v, limit, PcloseEnd) || forall status :: Enabled(v, limit, Exit(v.waiting.value, status))
  {
    ReachedInv(w, limit, events, v);
    var pid := v.waiting.value;
    var c := v.children[pid];
    assert ChildOk(v, pid);
    ChildEndsApart(v, pid);
    forall g | g in v.parent
      ensures v.parent[g] != ParentEnd(c.mode, c.pipe)
    {
      assert ParentSlotOk(v, g);
      assert g in v.childpid ==> StreamOk(v, g);
    }
  }

  /** The child that pclose_l waits for, if any. */
  function Awaited(w: World): set<Pid> {
    if w.waiting.Some? then {w.waiting.value} else {}
  }

  /** How many of the events may lose a child: a popen_l that fails in fdopen, a pclose_l that fails in fclose. */
  function Losses(events: seq<Event>): nat {
    if events == [] then 0
    else
      var e := events[0];
      (if (e.Popen? && e.outcome == FdopenFails) || e.PcloseFails? then 1 else 0) + Losses(events[1..])
  }

  lemma {:induction false} LostBound(w: World, limit: nat, events: seq<Event>, v: World)
    requires Run(w, limit, events, v)
    ensures |v.lost| <= |w.lost| + Losses(events)
    decreases |events|
  {
    if events != [] {
      var u := Apply(w, limit, events[0]);
      assert |u.lost| <= |w.lost| + Losses([events[0]]);
      assert Losses([events[0]]) + Losses(events[1..]) == Losses(events);
      LostBound(u, limit, events[1..], v);
    }
  }

  /**
   No two streams share a child, and every unreaped child has its stream, or is being waited for, or
   was lost by a failing call, and only one of these; no more are lost than calls failed that way.
   So without such failures the streams and the unreaped children not waited for match one to one.
   */
  lemma ChildpidIsBijection(w: World, limit: nat, events: seq<Event>, v: World)
    requires Initial(w) && Run(w, limit, events, v)
    ensures forall fd, fd' :: fd in v.childpid && fd' in v.childpid && v.childpid[fd] == v.childpid[fd'] ==> fd == fd'
    ensures v.childpid.Values + Awaited(v) + v.lost == v.children.Keys
    ensures v.childpid.Values !! Awaited(v) !! v.lost
    ensures |v.lost| <= Losses(events)
    ensures Losses(events) == 0 ==> v.childpid.Values == v.children.Keys - Awaited(v)
  {
    ReachedInv(w, limit, events, v);
    LostBound(w, limit, events, v);
    ChildrenPartition(v);
    hide Inv, Run, Initial, Awaited, Losses;
  }

  lemma ChildrenPartition(v: World)
    requires Inv(v)
    ensures forall fd, fd' :: fd in v.childpid && fd' in v.childpid && v.childpid[fd] == v.childpid[fd'] ==> fd == fd'
    ensures v.childpid.Values + Awaited(v) + v.lost == v.children.Keys
    ensures v.childpid.Values !! Awaited(v) !! v.lost
  {
    forall pid | pid in v.childpid.Values
      ensures pid in v.children && pid !in v.lost && v.waiting != Some(pid)
    {
      var fd :| fd in v.childpid && v.childpid[fd] == pid;
      assert StreamOk(v, fd);
    }
    forall pid | pid in v.children && pid !in v.lost && v.waiting != Some(pid)
      ensures pid in v.childpid.Values
    {
      assert ChildOk(v, pid);
      var fd :| StreamOf(v, fd, pid);
    }
  }

  /** The command has its end in place exactly when no live stream sits on its standard descriptor. */
  lemma ChildHasItsEndIff(w: World, limit: nat, mode: Mode)
    requires PipeEnds(w).1 < limit
    ensures (Std(mode) in ChildTable(w, limit, mode) &&
             ChildTable(w, limit, mode)[Std(mode)] == ChildEnd(mode, w.nextPipe))
       <==> Std(mode) !in w.childpid
  {
    ChildTableExactly(w, limit, mode);
  }

  /** The parent began with only descriptors 1 and 2 open. */
  function NoStdin(): World {
    World(map[1 := Other(0), 2 := Other(1)], map[], map[], map[], None, {}, {}, 0)
  }

  /** Its stream for reading lands on descriptor 0. */
  lemma StreamOnStdin(limit: nat)
    requires limit > 4
    ensures var u := PopenStep(NoStdin(), limit, Read, 1, Fine).0;
            && u.parent == map[0 := ReadEnd(0), 1 := Other(0), 2 := Other(1)]
            && u.childpid == map[0 := 1] && u.children.Keys == {1} && u.procs.Keys == {1}
            && u.waiting == None && u.nextPipe == 1
  {
    var w := NoStdin();
    assert PipeEnds(w) == (0, 3);
    ParentTableExactly(w, Read);
    hide WithPipe, ChildTable;
  }

  /** And a command started next, to read from the parent, has no input at all. */
  lemma StreamOnStdinTakesInput(limit: nat) returns (v: World)
    requires limit > 4
    ensures Initial(NoStdin()) && Run(NoStdin(), limit, [Popen(Read, 1, Fine), Popen(Write, 2, Fine)], v)
    ensures 2 in v.children && v.children[2].mode == Write && 2 in v.procs && 0 !in v.procs[2].table
    ensures 0 in v.childpid && v.childpid[0] == 1 && !ProcHolds(v, 2, ChildEnd(Write, v.children[2].pipe))
  {
    hide Run, WithPipe, ChildTable;
    StreamOnStdin(limit);
    var u := PopenStep(NoStdin(), limit, Read, 1, Fine).0;
    CommandWithoutInput(u, limit, 2);
    RunTwo(NoStdin(), limit, Popen(Read, 1, Fine), Popen(Write, 2, Fine));
    hide PopenStep, ProcHolds;
    v := PopenStep(u, limit, Write, 2, Fine).0;
  }

  lemma CommandWithoutInput(u: World, limit: nat, pid: Pid)
    requires u.parent == map[0 := ReadEnd(0), 1 := Other(0), 2 := Other(1)] && u.childpid == map[0 := 1]
    requires limit > 4
    ensures var v := PopenStep(u, limit, Write, pid, Fine).0;
            && pid in v.children && v.children[pid].mode == Write
            && pid in v.procs && 0 !in v.procs[pid].table
            && 0 in v.childpid && v.childpid[0] == 1
            && !ProcHolds(v, pid, ChildEnd(Write, v.children[pid].pipe))
  {
    assert 3 !in u.parent && 4 !in u.parent;
    assert PipeEnds(u) == (3, 4);
    ChildTableExactly(u, limit, Write);
    hide ChildTable, WithPipe, PipeEnds;
    var v := PopenStep(u, limit, Write, pid, Fine).0;
    assert v.procs[pid].table == Base(u);
  }

  lemma RunTwo(w: World, limit: nat, d: Event, e: Event)
    requires Enabled(w, limit, d) && Enabled(Apply(w, limit, d), limit, e)
    ensures Run(w, limit, [d, e], Apply(Apply(w, limit, d), limit, e))
  {
    var u := Apply(w, limit, d);
    var v := Apply(u, limit, e);
    hide Apply, Enabled;
    assert Run(v, limit, [], v);
    assert [e][1..] == [];
    assert Run(u, limit, [e], v);
    assert [d, e][1..] == [e];
  }

  // The parent's table

  /** Not a popen_l that fails with a pipe open; and the parent leaves its other descriptors as they are. */
  predicate Orderly(e: Event) {
    !e.ParentOpen? && !e.ParentClose? && (e.Popen? ==> e.outcome == Fine || e.outcome == PipeFails)
  }

  lemma {:induction false} BaseKept(w: World, limit: nat, events: seq<Event>, v: World)
    requires Inv(w) && Run(w, limit, events, v) && forall e :: e in events ==> Orderly(e)
    ensures Base(v) == Base(w)
    decreases |events|
  {
    if events != [] {
      assert events[0] in events;
      BaseStep(w, limit, events[0]);
      StepInv(w, limit, events[0]);
      hide Inv, Base, Apply;
      BaseKept(Apply(w, limit, events[0]), limit, events[1..], v);
    }
  }

  lemma BaseWithStream(t: Table, m: map<nat, Pid>, fd: nat, e: Entry, pid: Pid)
    requires fd !in t
    ensures t[fd := e] - m[fd := pid].Keys == t - m.Keys
  {
    assert m[fd := pid].Keys == m.Keys + {fd};
  }

  lemma BaseStep(w: World, limit: nat, e: Event)
    requires Inv(w) && Enabled(w, limit, e) && Orderly(e)
    ensures Base(Apply(w, limit, e)) == Base(w)
  {
    hide Inv;
    if e.Popen? && PipeWorks(w, limit, e.outcome) {
      var fd := StreamFd(w, e.mode);
      ParentTableExactly(w, e.mode);
      hide WithPipe, StreamFd;
      BaseWithStream(w.parent, w.childpid, fd, ParentEnd(e.mode, w.nextPipe), e.pid);
    } else if e.PcloseBegin? || e.PcloseFails? {
      assert (w.childpid - {e.fd}).Keys == w.childpid.Keys - {e.fd};
    }
  }

  /**
   The parent's table is always the table it began with plus the live streams' descriptors, so
   once every stream is closed, in any order, it is the table it began with.
   */
  lemma TableRestored(w: World, limit: nat, events: seq<Event>, v: World)
    requires Initial(w) && Run(w, limit, events, v) && forall e :: e in events ==> Orderly(e)
    ensures v.parent.Keys == w.parent.Keys + v.childpid.Keys && w.parent.Keys !! v.childpid.Keys
    ensures forall fd :: fd in w.parent ==> v.parent[fd] == w.parent[fd]
    ensures v.childpid == map[] ==> v.parent == w.parent
  {
    ReachedInv(w, limit, events, v);
    ReachedInv(w, limit, [], w);
    BaseKept(w, limit, events, v);
    assert Base(w) == w.parent;
    forall fd | fd in v.childpid
      ensures fd in v.parent
    {
      assert StreamOk(v, fd);
    }
    hide Inv, Run, Initial, Orderly, Base;
    TableFromBase(v, w.parent);
  }

  lemma TableFromBase(v: World, t: Table)
    requires Base(v) == t && forall fd :: fd in v.childpid ==> fd in v.parent
    ensures v.parent.Keys == t.Keys + v.childpid.Keys && t.Keys !! v.childpid.Keys
    ensures forall fd :: fd in t ==> v.parent[fd] == t[fd]
    ensures v.childpid == map[] ==> v.parent == t
  {
    forall fd | fd in t
      ensures fd in v.parent && fd !in v.childpid && v.parent[fd] == t[fd]
    {
      assert fd in Base(v);
    }
    assert forall fd :: fd in v.parent && fd !in v.childpid ==> fd in Base(v);
  }

  /** A popen_l that returns NULL leaves the descriptor table alone exactly when it got no pipe. */
  lemma FailedPopenKeepsTableIff(w: World, limit: nat, mode: Mode, pid: Pid, outcome: Outcome)
    requires PopenStep(w, limit, mode, pid, outcome).1 == None
    ensures PopenStep(w, limit, mode, pid, outcome).0.parent == w.parent <==> !PipeWorks(w, limit, outcome)
  {
    if PipeWorks(w, limit, outcome) {
      ParentTableExactly(w, mode);
      assert PipeEnds(w).0 in WithPipe(w);
    }
  }

  // Whose status pclose_l returns

  /** The child `pid` is as in `before`, or has a status that one of `events` gave it. */
  ghost predicate SameOrExited(before: World, after: World, pid: Pid, events: seq<Event>) {
    pid in before.children && pid in after.children &&
    (after.children[pid] == before.children[pid] ||
     (after.children[pid].status.Some? && Exit(pid, after.children[pid].status.value) in events))
  }

  /** A step other than the stream's own pclose_l leaves the stream with its child. */
  lemma StepKeepsStream(w: World, limit: nat, e: Event, fd: nat, pid: Pid)
    requires Inv(w) && Enabled(w, limit, e) && StreamOf(w, fd, pid)
    requires e != PcloseBegin(fd) && e != PcloseFails(fd)
    ensures StreamOf(Apply(w, limit, e), fd, pid) && SameOrExited(w, Apply(w, limit, e), pid, [e])
  {
    assert StreamOk(w, fd);
    if e.Popen? {
      PopenKeepsStream(w, limit, e, fd, pid);
    } else {
      assert ChildOk(w, pid);
      hide Inv, PopenStep;
    }
  }

  lemma PopenKeepsStream(w: World, limit: nat, e: Event, fd: nat, pid: Pid)
    requires e.Popen? && Inv(w) && Enabled(w, limit, e) && StreamOf(w, fd, pid)
    ensures StreamOf(Apply(w, limit, e), fd, pid) && SameOrExited(w, Apply(w, limit, e), pid, [e])
  {
    assert StreamOk(w, fd);
    if PipeWorks(w, limit, e.outcome) && e.outcome != ForkFails {
      PopenStarts(w, limit, e.mode, e.pid, e.outcome);
      hide PopenStep, Inv;
    } else {
      hide WithPipe, Inv;
    }
  }

  /** From its popen_l on, a stream keeps its child, whose status can only come from that child's exit. */
  lemma {:induction false} StreamKeepsChild(w: World, limit: nat, events: seq<Event>, v: World, fd: nat, pid: Pid)
    requires Inv(w) && Run(w, limit, events, v) && StreamOf(w, fd, pid)
    requires PcloseBegin(fd) !in events && PcloseFails(fd) !in events
    ensures StreamOf(v, fd, pid) && SameOrExited(w, v, pid, events)
    decreases |events|
  {
    assert StreamOk(w, fd);
    if events != [] {
      assert events == [events[0]] + events[1..];
      StepKeepsStream(w, limit, events[0], fd, pid);
      StepInv(w, limit, events[0]);
      hide Inv, Apply;
      StreamKeepsChild(Apply(w, limit, events[0]), limit, events[1..], v, fd, pid);
    }
  }

  /** While pclose_l waits, the same holds of the child it waits for. */
  lemma {:induction false} WaitKeepsChild(w: World, limit: nat, events: seq<Event>, v: World, pid: Pid)
    requires Inv(w) && Run(w, limit, events, v) && w.waiting == Some(pid) && PcloseEnd !in events
    ensures v.waiting == Some(pid) && SameOrExited(w, v, pid, events)
    decreases |events|
  {
    if events != [] {
      assert events == [events[0]] + events[1..];
      var u := Apply(w, limit, events[0]);
      assert u.waiting == Some(pid) && SameOrExited(w, u, pid, [events[0]]);
      StepInv(w, limit, events[0]);
      hide Inv, Apply;
      WaitKeepsChild(u, limit, events[1..], v, pid);
    }
  }

  lemma PopenGivesStream(w: World, limit: nat, mode: Mode, pid: Pid, fd: nat)
    requires PopenStep(w, limit, mode, pid, Fine).1 == Some(fd)
    ensures var v := PopenStep(w, limit, mode, pid, Fine).0;
            StreamOf(v, fd, pid) && pid in v.children && v.children[pid].status == None
  {
    hide ChildTable, WithPipe;
  }

  /**
   pclose_l returns the status of exactly the child that its own popen_l started: from a popen_l
   that returned `fd`, over any calls and steps, to the pclose_l of `fd` and its return, the status
   comes from that very child's exit in between, however descriptors are reused by others.
   */
  lemma PcloseReturnsOwnStatus(w0: World, limit: nat, before: seq<Event>, w: World, mode: Mode, pid: Pid, fd: nat,
                               events: seq<Event>, v: World, during: seq<Event>, u: World)
    requires Initial(w0) && Run(w0, limit, before, w)
    requires Enabled(w, limit, Popen(mode, pid, Fine)) && PopenStep(w, limit, mode, pid, Fine).1 == Some(fd)
    requires Run(PopenStep(w, limit, mode, pid, Fine).0, limit, events, v)
    requires PcloseBegin(fd) !in events && PcloseFails(fd) !in events
    requires Enabled(v, limit, PcloseBegin(fd)) && Run(CloseStream(v, fd), limit, during, u)
    requires PcloseEnd !in during && Enabled(u, limit, PcloseEnd)
    ensures u.waiting == Some(pid) && pid in u.children && u.children[pid].status.Some?
    ensures Exit(pid, u.children[pid].status.value) in events + during
  {
    hide Run, Initial;
    ReachedInv(w0, limit, before, w);
    PopenInv(w, limit, mode, pid, Fine);
    var started := PopenStep(w, limit, mode, pid, Fine).0;
    PopenGivesStream(w, limit, mode, pid, fd);
    hide PopenStep, Inv;
    RunInv(started, limit, events, v);
    StreamKeepsChild(started, limit, events, v, fd, pid);
    StepInv(v, limit, PcloseBegin(fd));
    WaitKeepsChild(CloseStream(v, fd), limit, during, u, pid);
  }
}
