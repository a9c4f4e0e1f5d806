/**
 The file tree walk (4-filedir/26-myftw/myftw.c): `dopath` descends through a hierarchy with one
 shared path buffer that it edits in place, calling `func` for every file. It is proved against a
 pure pre-order walk over a file system that stays as it is.
 */
module TreeWalk {
  import opened Options

  /** A character of a C string. */
  type NonNul = c: char | c != '\0' witness 'a'

  type CString = seq<NonNul>

  const NUL: char := '\0'
  const SLASH: CString := ['/']

  datatype Mode = Reg | Blk | Chr | Fifo | Lnk | Sock | Dir | Unset

  /** What lstat and opendir find under a path: a file that is not a directory, or a directory. */
  datatype Node = File(mode: Mode) | Directory(readable: bool, names: seq<CString>)

  /** By path, spelled the way the walk spells it; lstat fails for every other path. */
  type FileSystem = map<CString, Node>

  datatype Flag = FTW_F | FTW_D | FTW_DNR | FTW_NS

  /** One call of `func`. */
  datatype Visit = Visit(path: CString, mode: Mode, flag: Flag)

  predicate IsDot(name: CString) {
    name == ['.'] || name == ['.', '.']
  }

  function Child(path: CString, name: CString): CString {
    path + SLASH + name
  }

  ghost function Longest(paths: set<CString>): (n: nat)
    ensures forall p :: p in paths ==> |p| <= n
  {
    if paths == {} then 0
    else
      var p :| p in paths;
      var rest := Longest(paths - {p});
      if |p| <= rest then rest else |p|
  }

  /** Paths only grow on the way down, and the file system has a longest one. */
  ghost function Depth(fs: FileSystem, path: CString): nat {
    if |path| <= Longest(fs.Keys) then Longest(fs.Keys) + 1 - |path| else 0
  }

  lemma ChildIsDeeper(fs: FileSystem, path: CString, name: CString)
    requires path in fs
    ensures Depth(fs, Child(path, name)) < Depth(fs, path)
  {
    assert path in fs.Keys;
  }

  /** The calls that a full pre-order walk from `path` makes. */
  function Walk(fs: FileSystem, path: CString): seq<Visit>
    decreases Depth(fs, path), 1, 0
  {
    if path !in fs then [Visit(path, Unset, FTW_NS)]
    else match fs[path]
      case File(mode) => [Visit(path, mode, FTW_F)]
      case Directory(readable, names) =>
        [Visit(path, Dir, FTW_D)] +
        if readable then WalkNames(fs, path, names) else [Visit(path + SLASH, Dir, FTW_DNR)]
  }

  function WalkNames(fs: FileSystem, path: CString, names: seq<CString>): seq<Visit>
    requires path in fs
    decreases Depth(fs, path), 0, |names|
  {
    if names == [] then []
    else if IsDot(names[0]) then WalkNames(fs, path, names[1..])
    else
      ChildIsDeeper(fs, path, names[0]);
      Walk(fs, Child(path, names[0])) + WalkNames(fs, path, names[1..])
  }

  /** A callback may look at all calls so far; it answers for the last of them. */
  type Callback = seq<Visit> -> int

  /** The calls of `trace` made after those in `made`, until one answers nonzero; and the last answer. */
  function Finish(func: Callback, made: seq<Visit>, trace: seq<Visit>): (seq<Visit>, int)
    decreases |trace|
  {
    if trace == [] then (made, 0)
    else
      var made' := made + [trace[0]];
      if func(made') != 0 then (made', func(made')) else Finish(func, made', trace[1..])
  }

  /** `Finish` makes the shortest prefix of the trace that ends in a nonzero answer, or all of it. */
  lemma {:induction false} FinishIsShortestPrefix(func: Callback, made: seq<Visit>, trace: seq<Visit>)
    ensures exists n ::
              && 0 <= n <= |trace| && Finish(func, made, trace).0 == made + trace[..n]
              && (forall k :: 0 < k < n ==> func(made + trace[..k]) == 0)
              && (if Finish(func, made, trace).1 == 0
                  then n == |trace| && (n > 0 ==> func(made + trace[..n]) == 0)
                  else n > 0 && func(made + trace[..n]) == Finish(func, made, trace).1)
    decreases |trace|
  {
    if trace == [] {
      assert made + trace[..0] == made;
    } else {
      var made' := made + [trace[0]];
      assert made + trace[..1] == made';
      if func(made') == 0 {
        FinishIsShortestPrefix(func, made', trace[1..]);
        var m :| && 0 <= m <= |trace| - 1 && Finish(func, made', trace[1..]).0 == made' + trace[1..][..m]
                 && (forall k :: 0 < k < m ==> func(made' + trace[1..][..k]) == 0)
                 && (if Finish(func, made', trace[1..]).1 == 0
                     then m == |trace| - 1 && (m > 0 ==> func(made' + trace[1..][..m]) == 0)
                     else m > 0 && func(made' + trace[1..][..m]) == Finish(func, made', trace[1..]).1);
        assert forall k :: 0 <= k < |trace| ==> made' + trace[1..][..k] == made + trace[..k + 1];
        forall k | 0 < k < m + 1
          ensures func(made + trace[..k]) == 0
        {
          assert made' + trace[1..][..k - 1] == made + trace[..k];
          assert made' + trace[1..][..0] == made';
        }
        assert made' + trace[1..][..m] == made + trace[..m + 1];
      }
    }
  }

  lemma {:induction false} FinishConcat(func: Callback, made: seq<Visit>, a: seq<Visit>, b: seq<Visit>)
    ensures Finish(func, made, a + b)
         == (var (m, r) := Finish(func, made, a); if r != 0 then (m, r) else Finish(func, m, b))
    decreases |a|
  {
    if a == [] {
      assert a + b == b;
    } else {
      assert (a + b)[1..] == a[1..] + b;
      FinishConcat(func, made + [a[0]], a[1..], b);
    }
  }

  /** How long a buffer the walk from `path` needs, with the terminating NUL. */
  function Need(fs: FileSystem, path: CString): (n: nat)
    ensures n > |path|
    decreases Depth(fs, path), 1, 0
  {
    if path !in fs || fs[path].File? then |path| + 1
    else NeedNames(fs, path, if fs[path].readable then fs[path].names else [])
  }

  function NeedNames(fs: FileSystem, path: CString, names: seq<CString>): (n: nat)
    requires path in fs
    ensures n > |path| + 1
    ensures forall k :: 0 <= k < |names| && !IsDot(names[k]) ==> Need(fs, Child(path, names[k])) <= n
    decreases Depth(fs, path), 0, |names|
  {
    if names == [] then |path| + 2
    else
      var rest := NeedNames(fs, path, names[1..]);
      assert forall k :: 0 < k < |names| ==> names[k] == names[1..][k - 1];
      if IsDot(names[0]) then rest
      else
        ChildIsDeeper(fs, path, names[0]);
        var first := Need(fs, Child(path, names[0]));
        if first <= rest then rest else first
  }

  lemma SlashWritten(before: seq<char>, buf: seq<char>, path: CString)
    requires Holds(before, path) && |path| + 1 < |buf| == |before|
    requires buf == before[|path| := '/'][|path| + 1 := NUL]
    ensures Holds(buf, path + SLASH)
  {
  }

  /** After strcpy behind the slash, the buffer holds the child's path. */
  lemma ChildWritten(buf: seq<char>, path: CString, name: CString)
    requires |path| + 1 + |name| < |buf| && buf[..|path| + 1] == path + SLASH
    requires buf[|path| + 1..|path| + 1 + |name|] == name && buf[|path| + 1 + |name|] == NUL
    ensures Holds(buf, Child(path, name))
  {
    assert buf[..|path| + 1 + |name|] == buf[..|path| + 1] + buf[|path| + 1..|path| + 1 + |name|];
  }

  /** A buffer that holds a child's path, with or without a slash, still begins with the parent's. */
  lemma ParentKept(buf: seq<char>, path: CString, name: CString, held: CString)
    requires Holds(buf, held) && (held == Child(path, name) || held == Child(path, name) + SLASH)
    ensures |path| + 1 <= |buf| && buf[..|path| + 1] == path + SLASH
  {
    assert buf[..|path| + 1] == held[..|path| + 1];
  }

  /** The buffer contains the C string `path`. */
  predicate Holds(buf: seq<char>, path: CString) {
    |path| < |buf| && buf[..|path|] == path && buf[|path|] == NUL
  }

  /** The walk from `path` ends on the unreadable-directory exit, which leaves a slash in the buffer. */
  predicate LeavesSlash(fs: FileSystem, func: Callback, made: seq<Visit>, path: CString) {
    path in fs && fs[path].Directory? && !fs[path].readable && func(made + [Visit(path, Dir, FTW_D)]) == 0
  }

  /** What a walk from `path` amounts to, first call by first call. */
  lemma WalkUnfold(fs: FileSystem, func: Callback, made: seq<Visit>, path: CString)
    ensures path !in fs ==> Finish(func, made, Walk(fs, path)) == One(func, made, Visit(path, Unset, FTW_NS))
    ensures path in fs && fs[path].File? ==>
              Finish(func, made, Walk(fs, path)) == One(func, made, Visit(path, fs[path].mode, FTW_F))
    ensures path in fs && fs[path].Directory? ==>
              var first := One(func, made, Visit(path, Dir, FTW_D));
              && Finish(func, made, Walk(fs, path)) ==
                   (if first.1 != 0 then first
                    else if fs[path].readable then Finish(func, first.0, WalkNames(fs, path, fs[path].names))
                    else One(func, first.0, Visit(path + SLASH, Dir, FTW_DNR)))
              && Need(fs, path) >= |path| + 2
              && (fs[path].readable ==> Need(fs, path) == NeedNames(fs, path, fs[path].names))
  {
    if path in fs && fs[path].Directory? {
      var rest := if fs[path].readable then WalkNames(fs, path, fs[path].names)
                  else [Visit(path + SLASH, Dir, FTW_DNR)];
      FinishConcat(func, made, [Visit(path, Dir, FTW_D)], rest);
    }
  }

  function One(func: Callback, made: seq<Visit>, v: Visit): (r: (seq<Visit>, int))
    ensures r == Finish(func, made, [v])
  {
    (made + [v], func(made + [v]))
  }

  /** One more name of a directory. */
  lemma WalkNamesUnfold(fs: FileSystem, func: Callback, made: seq<Visit>, path: CString, names: seq<CString>)
    requires path in fs && names != []
    ensures IsDot(names[0]) ==> WalkNames(fs, path, names) == WalkNames(fs, path, names[1..])
    ensures !IsDot(names[0]) ==>
              var first := Finish(func, made, Walk(fs, Child(path, names[0])));
              Finish(func, made, WalkNames(fs, path, names))
              == if first.1 != 0 then first else Finish(func, first.0, WalkNames(fs, path, names[1..]))
  {
    if !IsDot(names[0]) {
      FinishConcat(func, made, Walk(fs, Child(path, names[0])), WalkNames(fs, path, names[1..]));
    }
  }

  lemma WalkNothing(fs: FileSystem, func: Callback, path: CString)
    requires path in fs
    ensures forall made :: Finish(func, made, WalkNames(fs, path, [])) == (made, 0)
  {
  }

  class Walker {
    const fs: FileSystem
    const func: Callback
    var fullpath: array<char>
    var calls: seq<Visit>
    var openDirs: int  // directory streams opened and not yet closed

    constructor (fs: FileSystem, func: Callback)
      ensures this.fs == fs && this.func == func && calls == [] && openDirs == 0
    {
      this.fs := fs;
      this.func := func;
      fullpath := new char[0];
      calls := [];
      openDirs := 0;
    }

    method Strlen(ghost path: CString) returns (n: nat)
      requires Holds(fullpath[..], path)
      ensures n == |path|
    {
      assert forall k :: 0 <= k < |path| ==> fullpath[k] == fullpath[..][..|path|][k] == path[k];
      n := 0;
      while fullpath[n] != NUL
        invariant n <= |path|
        decreases |path| - n
      {
        n := n + 1;
      }
    }

    /** The string in the buffer, as a system call that is given `fullpath` reads it. */
    method ReadPath(ghost path: CString) returns (p: CString)
      requires Holds(fullpath[..], path)
      ensures p == path
    {
      var n := Strlen(path);
      assert fullpath[..n] == fullpath[..][..n];
      p := fullpath[..n];
    }

    /** strcpy(fullpath + at, name). */
    method Strcpy(at: nat, name: CString)
      requires at + |name| < fullpath.Length
      modifies fullpath
      ensures fullpath[..at] == old(fullpath[..at])
      ensures fullpath[at..at + |name|] == name && fullpath[at + |name|] == NUL
    {
      var k := 0;
      while k < |name|
        invariant k <= |name|
        invariant fullpath[..at] == old(fullpath[..at])
        invariant fullpath[at..at + k] == name[..k]
      {
        fullpath[at + k] := name[k];
        assert fullpath[at..at + k + 1] == name[..k] + [name[k]];
        k := k + 1;
      }
      fullpath[at + k] := NUL;
    }

    method Call(path: CString, mode: Mode, flag: Flag) returns (ret: int)
      modifies this`calls
      ensures calls == old(calls) + [Visit(path, mode, flag)] && ret == func(calls)
    {
      calls := calls + [Visit(path, mode, flag)];
      ret := func(calls);
    }

    /** opendir(fullpath), with the trailing slash that `dopath` has just written. */
    method Opendir(ghost path: CString) returns (names: Option<seq<CString>>)
      requires Holds(fullpath[..], path + SLASH)
      modifies this`openDirs
      ensures names == if path in fs && fs[path].Directory? && fs[path].readable
                       then Some(fs[path].names) else None
      ensures openDirs == old(openDirs) + if names.Some? then 1 else 0
    {
      var p := ReadPath(path + SLASH);
      var dir := p[..|p| - 1];
      assert dir == path;
      if dir in fs && fs[dir].Directory? && fs[dir].readable {
        openDirs := openDirs + 1;
        return Some(fs[dir].names);
      }
      return None;
    }

    method Closedir()
      modifies this`openDirs
      ensures openDirs == old(openDirs) - 1
    {
      openDirs := openDirs - 1;
    }

    /**
     Walks down from the path in the buffer. The calls made and the result are those of the pure
     walk cut short by its first nonzero answer; every directory stream is closed again; and the
     buffer holds its path again, or that path and a slash if the path is an unreadable directory
     whose first call answered zero. Bytes of the path itself are the same throughout.
     */
    method DoPath(ghost path: CString) returns (ret: int)
      requires Holds(fullpath[..], path) && Need(fs, path) <= fullpath.Length
      modifies this`calls, this`openDirs, fullpath
      ensures (calls, ret) == Finish(func, old(calls), Walk(fs, path))
      ensures openDirs == old(openDirs)
      ensures Holds(fullpath[..], if LeavesSlash(fs, func, old(calls), path) then path + SLASH else path)
      decreases Depth(fs, path), 1
    {
      hide Walk, WalkNames, Need, NeedNames, Depth, Finish;
      var p := ReadPath(path);
      WalkUnfold(fs, func, calls, path);
      if p !in fs {
        ret := Call(p, Unset, FTW_NS);
        return;
      }
      if fs[p].File? {
        ret := Call(p, fs[p].mode, FTW_F);
        return;
      }
      ret := Call(p, Dir, FTW_D);
      if ret != 0 {
        return;
      }
      var ptr := Strlen(path);
      ghost var before := fullpath[..];
      fullpath[ptr] := '/';
      ptr := ptr + 1;
      fullpath[ptr] := NUL;
      SlashWritten(before, fullpath[..], path);
      var dp := Opendir(path);
      if dp.None? {
        p := ReadPath(path + SLASH);
        ret := Call(p, Dir, FTW_DNR);
        return;
      }
      ret := WalkDirectory(path, ptr, dp.value);
      fullpath[ptr - 1] := NUL;
      assert fullpath[..][..|path|] == fullpath[..|path|] == path;
      Closedir();
    }

    /** The readdir loop of `dopath`; `ptr` is where the names go. */
    method WalkDirectory(ghost path: CString, ptr: nat, names: seq<CString>) returns (ret: int)
      requires path in fs && ptr == |path| + 1 && NeedNames(fs, path, names) <= fullpath.Length
      requires fullpath[..ptr] == path + SLASH
      modifies this`calls, this`openDirs, fullpath
      ensures (calls, ret) == Finish(func, old(calls), WalkNames(fs, path, names))
      ensures openDirs == old(openDirs)
      ensures fullpath[..ptr] == path + SLASH
      decreases Depth(fs, path), 0
    {
      hide Walk, WalkNames, Need, NeedNames, Depth;
      ret := 0;
      WalkNothing(fs, func, path);
      var i := 0;
      assert names[0..] == names && names[|names|..] == [];
      while i < |names|
        invariant i <= |names| && ret == 0
        invariant openDirs == old(openDirs) && fullpath[..ptr] == path + SLASH
        invariant Finish(func, old(calls), WalkNames(fs, path, names))
               == Finish(func, calls, WalkNames(fs, path, names[i..]))
      {
        var name := names[i];
        WalkNamesUnfold(fs, func, calls, path, names[i..]);
        assert names[i..][1..] == names[i + 1..];
        i := i + 1;
        if IsDot(name) {
          continue;
        }
        ChildIsDeeper(fs, path, name);
        Strcpy(ptr, name);
        ChildWritten(fullpath[..], path, name);
        ghost var held := if LeavesSlash(fs, func, calls, Child(path, name)) then Child(path, name) + SLASH
                          else Child(path, name);
        ret := DoPath(Child(path, name));
        ParentKept(fullpath[..], path, name, held);
        if ret != 0 {
          break;
        }
      }
    }

    /**
     `myftw`: a fresh buffer of `len` bytes, into which the starting path is copied, cut off if it
     does not fit.
     */
    method MyFtw(pathname: CString, len: nat) returns (ret: int)
      requires Need(fs, Truncated(pathname, len)) <= len
      modifies this
      ensures |pathname| < len ==> (calls, ret) == Finish(func, old(calls), Walk(fs, pathname))
      ensures |pathname| >= len ==>
                len > 0 && (calls, ret) == Finish(func, old(calls), Walk(fs, pathname[..len - 1]))
      ensures openDirs == old(openDirs)
    {
      hide Walk, WalkNames, Need, NeedNames, Depth, Finish;
      fullpath := new char[len];
      var k := 0;
      while k < len
        invariant k <= len
        invariant forall j :: 0 <= j < k ==> fullpath[j] == if j < |pathname| then pathname[j] else NUL
        modifies fullpath
      {
        fullpath[k] := if k < |pathname| then pathname[k] else NUL;
        k := k + 1;
      }
      fullpath[len - 1] := NUL;
      assert Holds(fullpath[..], Truncated(pathname, len));
      ret := DoPath(Truncated(pathname, len));
    }
  }

  function Truncated(pathname: CString, len: nat): CString {
    if |pathname| < len || len == 0 then pathname else pathname[..len - 1]
  }
}
