/** `myfunc`, the callback of 4-filedir/26-myftw/myftw.c that counts files by their type. */
module TreeCounters {
  import opened TreeWalk
  import opened TreeVisits

  datatype Counts = Counts(nreg: nat, ndir: nat, nblk: nat, nchr: nat, nfifo: nat, nslink: nat, nsock: nat) {
    /** `ntot` of main. */
    function Total(): nat {
      nreg + nslink + nsock + ndir + nfifo + nchr + nblk
    }
  }

  function Count(c: Counts, v: Visit): Counts {
    match v.flag
    case FTW_F =>
      (match v.mode
       case Reg => c.(nreg := c.nreg + 1)
       case Blk => c.(nblk := c.nblk + 1)
       case Chr => c.(nchr := c.nchr + 1)
       case Fifo => c.(nfifo := c.nfifo + 1)
       case Lnk => c.(nslink := c.nslink + 1)
       case Sock => c.(nsock := c.nsock + 1)
       case _ => c)
    case FTW_D => c.(ndir := c.ndir + 1)
    case FTW_DNR => c
    case FTW_NS => c
  }

  class Counters {
    var nreg: nat
    var ndir: nat
    var nblk: nat
    var nchr: nat
    var nfifo: nat
    var nslink: nat
    var nsock: nat

    ghost function Value(): Counts
      reads this
    {
      Counts(nreg, ndir, nblk, nchr, nfifo, nslink, nsock)
    }

    constructor ()
      ensures Value() == Counts(0, 0, 0, 0, 0, 0, 0)
    {
      nreg, ndir, nblk, nchr, nfifo, nslink, nsock := 0, 0, 0, 0, 0, 0, 0;
    }

    /** `myfunc`; `quit` is its error arm for a directory reported as an ordinary file. */
    method MyFunc(v: Visit) returns (ret: int, quit: bool)
      modifies this
      ensures ret == 0 && Value() == Count(old(Value()), v)
      ensures quit <==> v.flag == FTW_F && v.mode == Dir
    {
      ret, quit := 0, false;
      match v.flag {
        case FTW_F =>
          match v.mode {
            case Reg => nreg := nreg + 1;
            case Blk => nblk := nblk + 1;
            case Chr => nchr := nchr + 1;
            case Fifo => nfifo := nfifo + 1;
            case Lnk => nslink := nslink + 1;
            case Sock => nsock := nsock + 1;
            case Dir => quit := true;
            case Unset =>
          }
        case FTW_D => ndir := ndir + 1;
        case FTW_DNR =>
        case FTW_NS =>
      }
    }
  }

  /** The counters after the calls of `trace`. */
  function Tally(c: Counts, trace: seq<Visit>): Counts
    decreases |trace|
  {
    if trace == [] then c else Tally(Count(c, trace[0]), trace[1..])
  }

  /** lstat reports a directory as one, and every other file with one of the six other types. */
  ghost predicate RealModes(fs: FileSystem) {
    forall p :: p in fs && fs[p].File? ==> fs[p].mode != Dir && fs[p].mode != Unset
  }

  function CountWhere(trace: seq<Visit>, kind: Visit -> bool): nat {
    if trace == [] then 0 else (if kind(trace[0]) then 1 else 0) + CountWhere(trace[1..], kind)
  }

  function PathsWhere(trace: seq<Visit>, kind: Visit -> bool): set<CString> {
    set v | v in trace && kind(v) :: v.path
  }

  lemma HeadIsNew(trace: seq<Visit>)
    requires DistinctPaths(trace) && trace != []
    ensures DistinctPaths(trace[1..])
    ensures forall w :: w in trace[1..] ==> w.path != trace[0].path
  {
    var rest := trace[1..];
    assert forall i :: 0 <= i < |rest| ==> rest[i] == trace[i + 1];
  }

  lemma PathsWhereStep(trace: seq<Visit>, kind: Visit -> bool)
    requires trace != []
    ensures PathsWhere(trace, kind)
         == PathsWhere(trace[1..], kind) + if kind(trace[0]) then {trace[0].path} else {}
  {
    assert forall w :: w in trace <==> w == trace[0] || w in trace[1..];
  }

  /** Where no path comes twice, the visits of a kind are as many as their paths. */
  lemma {:induction false} DistinctWhere(trace: seq<Visit>, kind: Visit -> bool)
    requires DistinctPaths(trace)
    ensures |PathsWhere(trace, kind)| == CountWhere(trace, kind)
  {
    if trace != [] {
      HeadIsNew(trace);
      hide DistinctPaths;
      DistinctWhere(trace[1..], kind);
      assert trace[0].path !in PathsWhere(trace[1..], kind);
      PathsWhereStep(trace, kind);
      hide PathsWhere;
    }
  }

  /** The visit found a file or a directory: lstat succeeded, and this is its first call. */
  const FOUND: Visit -> bool := (v: Visit) => v.flag == FTW_F || v.flag == FTW_D

  /** The visits with this flag and mode. */
  function Of(flag: Flag, mode: Mode): Visit -> bool {
    (v: Visit) => v.flag == flag && v.mode == mode
  }

  /** The nodes at or below `path` for which lstat succeeds. */
  ghost function Reached(fs: FileSystem, path: CString): set<CString> {
    set p | p in fs.Keys && ReachedFrom(fs, path, p)
  }

  lemma {:induction false} TallyFound(c: Counts, trace: seq<Visit>)
    requires forall v :: v in trace && v.flag == FTW_F ==> v.mode != Dir && v.mode != Unset
    ensures Tally(c, trace).Total() == c.Total() + CountWhere(trace, FOUND)
    decreases |trace|
  {
    if trace != [] {
      assert trace[0] in trace;
      TallyFound(Count(c, trace[0]), trace[1..]);
    }
  }

  lemma FoundPathsAreReached(fs: FileSystem, path: CString)
    ensures PathsWhere(Walk(fs, path), FOUND) == Reached(fs, path)
  {
    forall p
      ensures p in PathsWhere(Walk(fs, path), FOUND) <==> p in Reached(fs, path)
    {
      VisitedIffReached(fs, path, p);
      forall v | v in Walk(fs, path)
        ensures Truthful(fs, v)
      {
        VisitsAreReached(fs, path, v);
      }
    }
  }

  /**
   After a walk the seven counters have counted every visit that found something; and, names being
   what readdir promises, every node reached for which lstat succeeds, each of them once.
   */
  lemma CountersCountNodes(fs: FileSystem, path: CString, c: Counts)
    requires RealModes(fs)
    ensures Tally(c, Walk(fs, path)).Total() == c.Total() + CountWhere(Walk(fs, path), FOUND)
    ensures Proper(fs) ==> Tally(c, Walk(fs, path)).Total() == c.Total() + |Reached(fs, path)|
  {
    forall v | v in Walk(fs, path) && v.flag == FTW_F
      ensures v.mode != Dir && v.mode != Unset
    {
      VisitsAreReached(fs, path, v);
    }
    TallyFound(c, Walk(fs, path));
    if Proper(fs) {
      EachPathOnce(fs, path);
      DistinctWhere(Walk(fs, path), FOUND);
      FoundPathsAreReached(fs, path);
    }
  }

  // Each counter on its own

  lemma TallyStep(c: Counts, trace: seq<Visit>)
    requires trace != []
    ensures Tally(c, trace) == Tally(Count(c, trace[0]), trace[1..])
  {
  }

  lemma {:induction false} TallyOf(c: Counts, trace: seq<Visit>)
    requires forall v :: v in trace && v.flag == FTW_D ==> v.mode == Dir
    ensures var t := Tally(c, trace);
            && t.nreg == c.nreg + CountWhere(trace, Of(FTW_F, Reg))
            && t.ndir == c.ndir + CountWhere(trace, Of(FTW_D, Dir))
            && t.nblk == c.nblk + CountWhere(trace, Of(FTW_F, Blk))
            && t.nchr == c.nchr + CountWhere(trace, Of(FTW_F, Chr))
            && t.nfifo == c.nfifo + CountWhere(trace, Of(FTW_F, Fifo))
            && t.nslink == c.nslink + CountWhere(trace, Of(FTW_F, Lnk))
            && t.nsock == c.nsock + CountWhere(trace, Of(FTW_F, Sock))
    decreases |trace|
  {
    if trace != [] {
      assert trace[0] in trace;
      hide Tally;
      TallyOf(Count(c, trace[0]), trace[1..]);
      TallyStep(c, trace);
    }
  }

  /** The files of one type at or below `path`. */
  ghost function FilesOf(fs: FileSystem, path: CString, mode: Mode): set<CString> {
    set p | p in fs.Keys && ReachedFrom(fs, path, p) && fs[p] == File(mode)
  }

  ghost function DirectoriesOf(fs: FileSystem, path: CString): set<CString> {
    set p | p in fs.Keys && ReachedFrom(fs, path, p) && fs[p].Directory?
  }

  lemma PathsOfWalk(fs: FileSystem, path: CString, mode: Mode)
    ensures PathsWhere(Walk(fs, path), Of(FTW_F, mode)) == FilesOf(fs, path, mode)
    ensures PathsWhere(Walk(fs, path), Of(FTW_D, Dir)) == DirectoriesOf(fs, path)
  {
    forall v | v in Walk(fs, path)
      ensures Truthful(fs, v)
    {
      VisitsAreReached(fs, path, v);
    }
    forall p
      ensures p in PathsWhere(Walk(fs, path), Of(FTW_F, mode)) <==> p in FilesOf(fs, path, mode)
      ensures p in PathsWhere(Walk(fs, path), Of(FTW_D, Dir)) <==> p in DirectoriesOf(fs, path)
    {
      VisitedIffReached(fs, path, p);
    }
  }

  /** The number of files of one type that the walk reports. */
  lemma WalkCounts(fs: FileSystem, path: CString, mode: Mode)
    requires Proper(fs)
    ensures CountWhere(Walk(fs, path), Of(FTW_F, mode)) == |FilesOf(fs, path, mode)|
    ensures CountWhere(Walk(fs, path), Of(FTW_D, Dir)) == |DirectoriesOf(fs, path)|
  {
    EachPathOnce(fs, path);
    PathsOfWalk(fs, path, mode);
    DistinctWhere(Walk(fs, path), Of(FTW_F, mode));
    DistinctWhere(Walk(fs, path), Of(FTW_D, Dir));
  }

  /** After a walk each counter has the number of files of its own type, and `ndir` that of directories. */
  lemma EachCounterCounts(fs: FileSystem, path: CString)
    requires Proper(fs)
    ensures var counts := Tally(NONE, Walk(fs, path));
            && counts.nreg == |FilesOf(fs, path, Reg)| && counts.ndir == |DirectoriesOf(fs, path)|
            && counts.nblk == |FilesOf(fs, path, Blk)| && counts.nchr == |FilesOf(fs, path, Chr)|
            && counts.nfifo == |FilesOf(fs, path, Fifo)| && counts.nslink == |FilesOf(fs, path, Lnk)|
            && counts.nsock == |FilesOf(fs, path, Sock)|
  {
    forall v | v in Walk(fs, path) && v.flag == FTW_D
      ensures v.mode == Dir
    {
      VisitsAreReached(fs, path, v);
    }
    TallyOf(NONE, Walk(fs, path));
    forall mode
      ensures CountWhere(Walk(fs, path), Of(FTW_F, mode)) == |FilesOf(fs, path, mode)|
      ensures CountWhere(Walk(fs, path), Of(FTW_D, Dir)) == |DirectoriesOf(fs, path)|
    {
      WalkCounts(fs, path, mode);
    }
  }

  lemma {:induction false} NeverStopped(func: Callback, made: seq<Visit>, trace: seq<Visit>)
    requires forall h :: func(h) == 0
    ensures Finish(func, made, trace) == (made + trace, 0)
    decreases |trace|
  {
    if trace == [] {
      assert made + trace == made;
    } else {
      NeverStopped(func, made + [trace[0]], trace[1..]);
      assert made + [trace[0]] + trace[1..] == made + trace;
    }
  }

  /** `myfunc` always answers 0, so it sees the whole walk, and never gets to its error arm. */
  lemma MyFuncSeesAll(fs: FileSystem, path: CString, func: Callback)
    requires RealModes(fs) && forall h :: func(h) == 0
    ensures Finish(func, [], Walk(fs, path)) == (Walk(fs, path), 0)
    ensures forall v :: v in Walk(fs, path) ==> !(v.flag == FTW_F && v.mode == Dir)
  {
    NeverStopped(func, [], Walk(fs, path));
    assert [] + Walk(fs, path) == Walk(fs, path);
    forall v | v in Walk(fs, path)
      ensures !(v.flag == FTW_F && v.mode == Dir)
    {
      VisitsAreReached(fs, path, v);
    }
  }

  const NONE: Counts := Counts(0, 0, 0, 0, 0, 0, 0)

  /** Passes the calls on to `myfunc`, one after the other. */
  method CountCalls(calls: seq<Visit>) returns (ret: int, counts: Counts)
    requires forall v :: v in calls ==> !(v.flag == FTW_F && v.mode == Dir)
    ensures ret == 0 && counts == Tally(NONE, calls)
  {
    var counters := new Counters();
    ret := 0;
    for i := 0 to |calls|
      invariant ret == 0 && fresh(counters) && counters.Value() == Tally(NONE, calls[..i])
    {
      TallySnoc(NONE, calls[..i], calls[i]);
      assert calls[..i + 1] == calls[..i] + [calls[i]];
      var quit;
      ret, quit := counters.MyFunc(calls[i]);
      assert !quit;
    }
    assert calls[..|calls|] == calls;
    counts := Counts(counters.nreg, counters.ndir, counters.nblk, counters.nchr,
                     counters.nfifo, counters.nslink, counters.nsock);
  }

  /**
   A walk whose every call goes to `myfunc`. As `myfunc` only counts and always answers 0, the calls
   are passed on to it in their order once they are all known.
   */
  method WalkAndCount(fs: FileSystem, pathname: CString, len: nat) returns (ret: int, counts: Counts)
    requires RealModes(fs) && Need(fs, Truncated(pathname, len)) <= len
    ensures ret == 0 && counts == Tally(NONE, Walk(fs, Truncated(pathname, len)))
  {
    hide Need, Finish, Tally, Walk, RealModes;
    var func: Callback := _ => 0;
    MyFuncSeesAll(fs, Truncated(pathname, len), func);
    var walker := new Walker(fs, func);
    ret := walker.MyFtw(pathname, len);
    assert walker.calls == Walk(fs, Truncated(pathname, len));
    var answer;
    answer, counts := CountCalls(walker.calls);
  }

  /** The program. `path` is the starting path as it was copied, cut off if it does not fit. */
  method CountFiles(fs: FileSystem, pathname: CString, len: nat)
    returns (ret: int, counts: Counts, ghost path: CString)
    requires RealModes(fs) && Need(fs, Truncated(pathname, len)) <= len
    ensures path == if |pathname| < len then pathname else pathname[..len - 1]
    ensures ret == 0 && counts == Tally(NONE, Walk(fs, path))
    ensures Proper(fs) ==>
              && counts.nreg == |FilesOf(fs, path, Reg)| && counts.ndir == |DirectoriesOf(fs, path)|
              && counts.nblk == |FilesOf(fs, path, Blk)| && counts.nchr == |FilesOf(fs, path, Chr)|
              && counts.nfifo == |FilesOf(fs, path, Fifo)| && counts.nslink == |FilesOf(fs, path, Lnk)|
              && counts.nsock == |FilesOf(fs, path, Sock)| && counts.Total() == |Reached(fs, path)|
  {
    hide Walk, Reached, FilesOf, DirectoriesOf, RealModes, Proper, Tally;
    path := Truncated(pathname, len);
    ret, counts := WalkAndCount(fs, pathname, len);
    CountersCountNodes(fs, path, NONE);
    if Proper(fs) {
      EachCounterCounts(fs, path);
    }
  }

  lemma {:induction false} TallySnoc(c: Counts, trace: seq<Visit>, v: Visit)
    ensures Tally(c, trace + [v]) == Count(Tally(c, trace), v)
    decreases |trace|
  {
    if trace == [] {
      assert Tally(Count(c, v), []) == Count(c, v);
      assert [] + [v] == [v];
    } else {
      assert (trace + [v])[1..] == trace[1..] + [v];
      TallySnoc(Count(c, trace[0]), trace[1..], v);
    }
  }
}
