/**
 `popen_l` and `pclose_l` themselves (15-ipc/4-popen/popen.c), with the static array `childpid`, the
 child's edits of its own descriptor table and the loop around waitpid; proved against the steps of
 PopenWorld.
 */
module Popen {
  import opened Descriptors
  import opened Options
  import opened PopenWorld

  /** Character `i` of a C string; the one behind the last is the NUL. */
  function CharAt(s: string, i: nat): char {
    if i < |s| then s[i] else '\0'
  }

  /** The test at the head of popen_l. */
  predicate RejectsType(kind: string) {
    (CharAt(kind, 0) != 'r' && CharAt(kind, 0) != 'w') || CharAt(kind, 1) != '\0'
  }

  lemma OnlyReadOrWrite(kind: string)
    requires '\0' !in kind
    ensures !RejectsType(kind) <==> kind == "r" || kind == "w"
  {
    assert |kind| > 1 ==> kind[1] in kind;
    if !RejectsType(kind) {
      assert kind == [kind[0]];
    }
  }

  function ModeOf(kind: string): Mode {
    if CharAt(kind, 0) == 'r' then Read else Write
  }

  /** pclose_l on a live stream: close it, let the child exit (with `status`, if it still runs), reap it. */
  function PcloseStep(w: World, fd: nat, status: int): (World, int)
    requires fd in w.childpid && w.childpid[fd] in w.children
  {
    var pid := w.childpid[fd];
    var exit := if w.children[pid].status.Some? then w.children[pid].status.value else status;
    var closed := CloseStream(w, fd);
    (closed.(procs := w.procs - {pid}, children := w.children - {pid}, waiting := None), exit)
  }

  /** That is the event of closing, the child's exit unless it has exited already, and the return. */
  lemma PcloseStepIsEvents(w: World, limit: nat, fd: nat, status: int)
    requires Inv(w) && w.waiting == None && fd in w.childpid
    ensures w.childpid[fd] in w.children
    ensures exists u ::
              && Run(w, limit, [PcloseBegin(fd)] + ExitIfRunning(w, w.childpid[fd], status), u)
              && Enabled(u, limit, PcloseEnd)
              && u.children[u.waiting.value].status == Some(PcloseStep(w, fd, status).1)
              && Apply(u, limit, PcloseEnd) == PcloseStep(w, fd, status).0
  {
    assert StreamOk(w, fd);
    var pid := w.childpid[fd];
    assert ChildOk(w, pid);
    var closed := CloseStream(w, fd);
    var events := ExitIfRunning(w, pid, status);
    assert ([PcloseBegin(fd)] + events)[1..] == events;
    if events == [] {
      assert Run(closed, limit, events, closed);
      assert w.procs - {pid} == w.procs;
      assert Apply(closed, limit, PcloseEnd) == PcloseStep(w, fd, status).0;
      assert Run(w, limit, [PcloseBegin(fd)] + events, closed);
    } else {
      var u := Apply(closed, limit, events[0]);
      assert events[1..] == [];
      assert Run(closed, limit, events, u);
      assert u.children - {pid} == w.children - {pid};
      assert Run(w, limit, [PcloseBegin(fd)] + events, u);
    }
  }

  function ExitIfRunning(w: World, pid: Pid, status: int): seq<Event> {
    if pid in w.procs then [Exit(pid, status)] else []
  }

  lemma PcloseStepInv(w: World, limit: nat, fd: nat, status: int)
    requires Inv(w) && w.waiting == None && fd in w.childpid && w.childpid[fd] in w.children
    ensures Inv(PcloseStep(w, fd, status).0)
  {
    PcloseStepIsEvents(w, limit, fd, status);
    var events := [PcloseBegin(fd)] + ExitIfRunning(w, w.childpid[fd], status);
    var u :| Run(w, limit, events, u) && Enabled(u, limit, PcloseEnd)
             && Apply(u, limit, PcloseEnd) == PcloseStep(w, fd, status).0;
    RunInv(w, limit, events, u);
    StepInv(u, limit, PcloseEnd);
  }

  /** What waitpid reports. */
  datatype WaitResult = Reaped(status: int) | Interrupted | NoSuchChild

  class Parent {
    var fds: Table
    const limit: nat
    // the file's static variables
    var childpid: array?<int>
    var maxfd: int
    // the kernel's side
    var children: map<Pid, Child>
    var procs: map<Pid, Proc>
    var nextPipe: nat
    var interruptions: nat  // how often waitpid will still return EINTR
    ghost var lost: set<Pid>
    ghost var leaked: set<nat>

    ghost function Entries(): map<nat, Pid>
      reads this`childpid, childpid
    {
      if childpid == null then map[]
      else map i: nat | i < childpid.Length && childpid[i] > 0 :: childpid[i]
    }

    ghost function View(): World
      reads this, childpid
    {
      World(fds, Entries(), children, procs, None, lost, leaked, nextPipe)
    }

    /** `maxfd` is the process limit, so every descriptor has its array element. */
    ghost predicate Valid()
      reads this, childpid
    {
      && Inv(View())
      && (childpid != null ==> maxfd == childpid.Length == limit && forall i :: 0 <= i < limit ==> childpid[i] >= 0)
    }

    constructor (fds: Table, limit: nat)
      requires forall fd :: fd in fds ==> fds[fd].Other?
      ensures Valid() && View() == World(fds, map[], map[], map[], None, {}, {}, 0) && this.limit == limit
      ensures childpid == null
    {
      this.fds := fds;
      this.limit := limit;
      childpid := null;
      maxfd := 0;
      children, procs, nextPipe, interruptions := map[], map[], 0, 0;
      lost, leaked := {}, {};
      new;
      ReachedInv(View(), limit, [], View());
    }

    /** What the child does before it execs: `t` is its copy of the table, `a` and `b` its pipe. */
    method RunChild(t: Table, kind: string, a: nat, b: nat) returns (table: Table)
      requires childpid != null && maxfd == childpid.Length
      ensures table == (if CharAt(kind, 0) == 'r' then Wired(t, limit, b, a, 1) else Wired(t, limit, a, b, 0))
                       - Entries().Keys
    {
      table := t;
      if CharAt(kind, 0) == 'r' {
        table := Close(table, a);
        if b != 1 {
          table := Dup2(table, limit, b, 1).0;
          table := Close(table, b);
        }
      } else {
        table := Close(table, b);
        if a != 0 {
          table := Dup2(table, limit, a, 0).0;
          table := Close(table, a);
        }
      }
      table := CloseStreams(table);
    }

    /** All descriptors in `childpid` closed. */
    method CloseStreams(t: Table) returns (table: Table)
      requires childpid != null && maxfd == childpid.Length
      ensures table == t - Entries().Keys
    {
      table := t;
      var i := 0;
      while i < maxfd
        invariant 0 <= i <= maxfd
        invariant table == t - set k | k in Entries().Keys && k < i
      {
        if childpid[i] > 0 {
          table := Close(table, i);
        }
        i := i + 1;
      }
      assert (set k | k in Entries().Keys && k < i) == Entries().Keys;
    }

    ghost predicate ArrayOk()
      reads this`childpid, this`maxfd, childpid
    {
      childpid != null && maxfd == childpid.Length == limit && forall i :: 0 <= i < limit ==> childpid[i] >= 0
    }

    /** Assigning one element of the array changes one entry. */
    twostate lemma EntriesUpdate(fd: nat)
      requires old(ArrayOk()) && ArrayOk() && childpid == old(childpid) && fd < limit
      requires forall i :: 0 <= i < limit && i != fd ==> childpid[i] == old(childpid[i])
      ensures Entries() == if childpid[fd] > 0 then old(Entries())[fd := childpid[fd]] else old(Entries()) - {fd}
    {
    }

    /** The child, up to its exec. */
    method StartChild(kind: string, pid: Pid, a: nat, b: nat, pipe: nat)
      requires ArrayOk()
      modifies this`procs, this`children
      ensures procs == old(procs)[pid := Proc(pipe, ModeOf(kind), old(
                (if ModeOf(kind) == Read then Wired(fds, limit, b, a, 1) else Wired(fds, limit, a, b, 0))
                - Entries().Keys))]
      ensures children == old(children)[pid := Child(pipe, ModeOf(kind), None)]
    {
      hide Wired, Entries;
      var table := RunChild(fds, kind, a, b);
      procs := procs[pid := Proc(pipe, ModeOf(kind), table)];
      children := children[pid := Child(pipe, ModeOf(kind), None)];
    }

    /** After the fork: the child's part, then the parent's. */
    method Forked(kind: string, pid: Pid, fdopenWorks: bool, a: nat, b: nat, pipe: nat) returns (fp: Option<nat>)
      requires ArrayOk() && a in fds && b in fds && a < limit && b < limit
      modifies this, childpid
      ensures ArrayOk() && childpid == old(childpid) && interruptions == old(interruptions)
      ensures fds == old(fds) - {if ModeOf(kind) == Read then b else a}
      ensures procs == old(procs)[pid := Proc(pipe, ModeOf(kind), old(
                (if ModeOf(kind) == Read then Wired(fds, limit, b, a, 1) else Wired(fds, limit, a, b, 0))
                - Entries().Keys))]
      ensures children == old(children)[pid := Child(pipe, ModeOf(kind), None)] && nextPipe == old(nextPipe)
      ensures if fdopenWorks
              then fp == Some(if ModeOf(kind) == Read then a else b) && Entries() == old(Entries())[fp.value := pid]
                   && lost == old(lost) && leaked == old(leaked)
              else fp == None && Entries() == old(Entries())
                   && lost == old(lost) + {pid} && leaked == old(leaked) + {pipe}
    {
      hide Wired, Entries;
      StartChild(kind, pid, a, b, pipe);
      var fd;
      if CharAt(kind, 0) == 'r' {
        fds := Close(fds, b);
        fd := a;
      } else {
        fds := Close(fds, a);
        fd := b;
      }
      if !fdopenWorks {
        lost, leaked := lost + {pid}, leaked + {pipe};
        return None;
      }
      label stored:
      childpid[fd] := pid;
      EntriesUpdate@stored(fd);
      fp := Some(fd);
    }

    /** From pipe to the end, once the array is there. */
    method Start(kind: string, pid: Pid, outcome: Outcome) returns (fp: Option<nat>)
      requires ArrayOk()
      modifies this, childpid
      ensures ArrayOk() && childpid == old(childpid) && interruptions == old(interruptions)
      ensures (View(), fp) == PopenStep(old(View()), limit, ModeOf(kind), pid, outcome)
    {
      hide Wired, Entries;
      ghost var w := View();
      var (a, b) := PipeSlots(fds);
      if outcome == PipeFails || b >= limit {
        return None;
      }
      var pipe := nextPipe;
      fds := fds[a := ReadEnd(pipe)][b := WriteEnd(pipe)];
      nextPipe := nextPipe + 1;
      assert fds == WithPipe(w);
      if outcome == ForkFails {
        leaked := leaked + {pipe};
        return None;
      }
      fp := Forked(kind, pid, outcome == Fine, a, b, pipe);
    }

    /**
     `kind` is the type argument, `pid` what fork would return; `callocWorks` and `outcome` say which
     of the calls fail. The result is the descriptor of the stream, or None for NULL.
     */
    method PopenL(kind: string, callocWorks: bool, pid: Pid, outcome: Outcome) returns (fp: Option<nat>)
      requires Valid() && pid !in children && pid !in procs
      modifies this, childpid
      ensures Valid()
      ensures if RejectsType(kind) || (old(childpid) == null && !callocWorks)
              then View() == old(View()) && fp == None
              else (View(), fp) == PopenStep(old(View()), limit, ModeOf(kind), pid, outcome)
      ensures fp.Some? ==> fp.value !in old(fds) && Entries() == old(Entries())[fp.value := pid] && pid in procs
      ensures fp.Some? && kind == "r" ==>
                && fds == old(fds)[fp.value := ReadEnd(old(nextPipe))]
                && procs[pid].table == old(if 1 in Entries() then fds - Entries().Keys
                                           else (fds - Entries().Keys)[1 := WriteEnd(nextPipe)])
      ensures fp.Some? && kind == "w" ==>
                && fds == old(fds)[fp.value := WriteEnd(old(nextPipe))]
                && procs[pid].table == old(if 0 in Entries() then fds - Entries().Keys
                                           else (fds - Entries().Keys)[0 := ReadEnd(nextPipe)])
      ensures kind == "r" || kind == "w" ==>
                (fp.Some? <==>
                   outcome == Fine && PipeSlots(old(fds)).1 < limit && (old(childpid) != null || callocWorks))
    {
      assert childpid == null ==> Entries() == map[];
      hide Inv, PopenStep, Entries;
      ghost var w := View();
      PopenEnds(w, limit, ModeOf(kind), pid, outcome);
      if (CharAt(kind, 0) != 'r' && CharAt(kind, 0) != 'w') || CharAt(kind, 1) != '\0' {
        return None;
      }
      PopenInv(w, limit, ModeOf(kind), pid, outcome);
      if childpid == null {
        if !callocWorks {
          return None;
        }
        Allocate();
      }
      fp := Start(kind, pid, outcome);
    }

    /** The array, on the first call. */
    method Allocate()
      requires childpid == null
      modifies this`childpid, this`maxfd
      ensures ArrayOk() && fresh(childpid) && Entries() == map[]
    {
      maxfd := limit;
      childpid := new int[limit](_ => 0);
    }

    /** waitpid for a child of this process: a caught signal may interrupt it any number of times. */
    method Waitpid(pid: Pid, status: int) returns (r: WaitResult)
      modifies this`interruptions, this`children, this`procs
      ensures old(interruptions) > 0 ==>
                r == Interrupted && interruptions == old(interruptions) - 1
                && children == old(children) && procs == old(procs)
      ensures old(interruptions) == 0 ==> interruptions == 0
      ensures old(interruptions) == 0 && pid !in old(children) ==>
                r == NoSuchChild && children == old(children) && procs == old(procs)
      ensures old(interruptions) == 0 && pid in old(children) ==>
                && children == old(children) - {pid} && procs == old(procs) - {pid}
                && r == Reaped(if old(children[pid].status.Some?) then old(children[pid].status.value) else status)
    {
      if interruptions > 0 {
        interruptions := interruptions - 1;
        return Interrupted;
      }
      if pid !in children {
        return NoSuchChild;
      }
      // the child exits, if it has not yet, and is reaped
      r := Reaped(if children[pid].status.Some? then children[pid].status.value else status);
      procs := procs - {pid};
      children := children - {pid};
    }

    /** The loop at the end of pclose_l: only an interruption makes it call waitpid again. */
    method WaitFor(pid: Pid, status: int) returns (r: int)
      modifies this`interruptions, this`children, this`procs
      ensures pid in old(children) ==>
                && children == old(children) - {pid} && procs == old(procs) - {pid}
                && r == if old(children[pid].status.Some?) then old(children[pid].status.value) else status
      ensures pid !in old(children) ==> r == -1 && children == old(children) && procs == old(procs)
    {
      var got := Waitpid(pid, status);
      while got == Interrupted || got == NoSuchChild
        invariant got == Interrupted ==> children == old(children) && procs == old(procs)
        invariant got == NoSuchChild ==> pid !in old(children) && children == old(children) && procs == old(procs)
        invariant got.Reaped? ==>
                    && pid in old(children) && children == old(children) - {pid} && procs == old(procs) - {pid}
                    && got.status == if old(children[pid].status.Some?) then old(children[pid].status.value) else status
        decreases if got == Interrupted then 1 else 0, interruptions
      {
        if got != Interrupted {
          return -1;
        }
        got := Waitpid(pid, status);
      }
      r := got.status;
    }

    /** pclose_l from the found entry on: clear it, fclose, wait. */
    method CloseLive(fp: nat, pid: Pid, fcloseWorks: bool, status: int) returns (r: int)
      requires ArrayOk() && fp < limit && fp in fds && childpid[fp] == pid && pid in children
      modifies this, childpid
      ensures ArrayOk() && childpid == old(childpid)
      ensures fds == old(fds) - {fp} && Entries() == old(Entries()) - {fp}
      ensures leaked == old(leaked) && nextPipe == old(nextPipe)
      ensures !fcloseWorks ==>
                r == -1 && children == old(children) && procs == old(procs) && lost == old(lost) + {pid}
      ensures fcloseWorks ==>
                && children == old(children) - {pid} && procs == old(procs) - {pid} && lost == old(lost)
                && r == if old(children[pid].status.Some?) then old(children[pid].status.value) else status
    {
      hide Entries;
      label live:
      childpid[fp] := 0;
      EntriesUpdate@live(fp);
      fds := Close(fds, fp);  // fclose
      if !fcloseWorks {
        lost := lost + {pid};
        return -1;
      }
      r := WaitFor(pid, status);
    }

    /**
     `fp` is the stream's descriptor, `status` what the child exits with if it is still running.
     A stream that is none of popen_l's is refused; otherwise the result is the child's status, after
     any number of interruptions.
     */
    method PcloseL(fp: nat, fcloseWorks: bool, status: int) returns (r: int)
      requires Valid() && fp < limit
      modifies this, childpid
      ensures Valid()
      ensures fp !in old(Entries()) ==> r == -1 && View() == old(View())
      ensures fp in old(Entries()) && !fcloseWorks ==> r == -1 && View() == Abandoned(old(View()), fp)
      ensures fp in old(Entries()) && fcloseWorks ==>
                && old(Entries())[fp] in old(children)
                && (View(), r) == PcloseStep(old(View()), fp, status)
      ensures fp in old(Entries()) ==> fds == old(fds) - {fp} && Entries() == old(Entries()) - {fp}
      ensures fp in old(Entries()) && fcloseWorks ==>
                var pid := old(Entries())[fp];
                && children == old(children) - {pid} && procs == old(procs) - {pid}
                && r == if old(children)[pid].status.Some? then old(children)[pid].status.value else status
    {
      ghost var w := View();
      if childpid == null {
        return -1;
      }
      var pid := childpid[fp];
      if pid == 0 {
        return -1;
      }
      assert fp in w.childpid && w.childpid[fp] == pid;
      StreamIsKnown(w, fp);
      AbandonedInv(w, limit, fp);
      PcloseStepInv(w, limit, fp, status);
      hide Inv, Entries;
      r := CloseLive(fp, pid, fcloseWorks, status);
    }
  }

  lemma StreamIsKnown(w: World, fd: nat)
    requires Inv(w) && fd in w.childpid
    ensures w.childpid[fd] in w.children && fd in w.parent
  {
    assert StreamOk(w, fd);
  }
}
